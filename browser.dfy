/**
 * The browser state the pages share: the `currentUser` entry of local
 * storage (absent, or the JSON object last written) and the router's
 * current location.
 */
module Browser {
  import opened Wrappers
  import opened Json

  class Session {
    var currentUser: Option<Object>
    var location: string

    constructor (stored: Option<Object>, at: string)
      ensures currentUser == stored && location == at
    {
      currentUser := stored;
      location := at;
    }
  }
}
