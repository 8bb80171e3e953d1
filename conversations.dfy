/**
 * The server's conversations: each belongs to a user and records when it
 * was opened.  The clock reading and the outcome of the commit are
 * parameters.  The user check before creating or listing calls the route
 * handler `get_user_by_id`, whose answer is a (body, status) pair; a
 * non-empty tuple is always true in Python, so the check never rejects.
 */
module Conversations {
  import opened Json
  import Users
  import Wrappers
  import Text

  /** `time` is the ISO-8601 text `to_dict` gives. */
  datatype Conversation = Conversation(id: nat, userId: int, time: string)

  function ToDict(c: Conversation): (d: Object)
    ensures d.Keys == {"id", "userId", "time"}
    ensures d["id"] == Num(c.id) && d["userId"] == Num(c.userId) && d["time"] == Str(c.time)
  {
    map["id" := Num(c.id), "userId" := Num(c.userId), "time" := Str(c.time)]
  }

  datatype Body =
    | Created(message: string, conversation: Object)
    | ConversationList(conversations: seq<Object>)
    | ErrorBody(error: string)

  datatype Reply = Reply(body: Body, status: nat)

  /**
   * `not user` never holds: the route handler answers every id with a
   * (body, status) pair, and a non-empty tuple is true in Python.  So the
   * check passes even for an id no user has, whose pair carries 404.
   */
  lemma UserGuardNeverRejects(users: seq<Users.User>, userId: int)
    ensures (forall u :: u in users ==> u.id != userId) ==>
      Users.GetUserByIdRoute(users, userId) == Users.Response(404, Users.ErrorMessage("User with ID " + Text.IntToDecimal(userId) + " not found"))
  {
  }

  /** `get_conversation_by_id`: the conversation with that id, if any. */
  function FindConversation(rows: seq<Conversation>, id: int): (r: Wrappers.Option<Conversation>)
    ensures r.Some? ==> r.value in rows && r.value.id == id
    ensures r.None? ==> forall c :: c in rows ==> c.id != id
  {
    if |rows| == 0 then Wrappers.None
    else if rows[0].id == id then Wrappers.Some(rows[0])
    else FindConversation(rows[1..], id)
  }

  /** `filter_by(userId=u).all()`: the user's conversations, in table order. */
  function ConversationsOf(rows: seq<Conversation>, userId: int): (r: seq<Conversation>)
    ensures forall c :: c in r <==> c in rows && c.userId == userId
  {
    if |rows| == 0 then []
    else
      var rest := ConversationsOf(rows[1..], userId);
      assert forall c :: c in rows <==> c == rows[0] || c in rows[1..];
      if rows[0].userId == userId then [rows[0]] + rest else rest
  }

  /** `[c.to_dict() for c in cs]`. */
  function Dicts(cs: seq<Conversation>): (r: seq<Object>)
    ensures |r| == |cs| && forall i :: 0 <= i < |cs| ==> r[i] == ToDict(cs[i])
  {
    seq(|cs|, i requires 0 <= i < |cs| => ToDict(cs[i]))
  }

  /**
   * `get_conversations_by_user_id`: the user's conversations with 200, or
   * 404 when there are none.
   */
  function GetConversationsByUserId(rows: seq<Conversation>, users: seq<Users.User>, userId: int): (r: Reply)
    ensures r.status == 404 <==> forall c :: c in rows ==> c.userId != userId
    ensures r.status == 200 ==> r.body == ConversationList(Dicts(ConversationsOf(rows, userId)))
    ensures r.status in {200, 404}
  {
    var found := ConversationsOf(rows, userId);
    if |found| == 0 then Reply(ErrorBody("No conversations found"), 404)
    else
      assert found[0] in found;
      Reply(ConversationList(Dicts(found)), 200)
  }

  class ConversationTable {
    var rows: seq<Conversation>
    var nextId: nat

    ghost predicate Valid()
      reads this
    {
      forall i :: 0 <= i < |rows| ==> rows[i].id < nextId
    }

    constructor ()
      ensures Valid() && rows == [] && nextId == 1
    {
      rows := [];
      nextId := 1;
    }

    /**
     * `create_conversation`.  A zero user id answers an error body with the
     * default status 200 and adds nothing.  Otherwise, whether or not a user
     * has that id, one conversation is added for it at time `now` and 201 is
     * answered; a failed commit is rolled back and answered with 500.
     */
    method CreateConversation(users: seq<Users.User>, userId: int, now: string, commitSucceeds: bool) returns (r: Reply)
      requires Valid()
      modifies this
      ensures Valid()
      ensures userId == 0 ==> r == Reply(ErrorBody("UserId is required"), 200) && rows == old(rows) && nextId == old(nextId)
      ensures userId != 0 && commitSucceeds ==>
        && rows == old(rows) + [Conversation(old(nextId), userId, now)]
        && nextId == old(nextId) + 1
        && r == Reply(Created("Conversation created successfully", ToDict(Conversation(old(nextId), userId, now))), 201)
      ensures userId != 0 && !commitSucceeds ==> r.status == 500 && rows == old(rows) && nextId == old(nextId)
    {
      if userId == 0 {
        return Reply(ErrorBody("UserId is required"), 200);
      }
      var user := Users.GetUserByIdRoute(users, userId);
      var newConversation := Conversation(nextId, userId, now);
      if !commitSucceeds {
        return Reply(ErrorBody("An error occurred while creating a conversation"), 500);
      }
      rows := rows + [newConversation];
      nextId := nextId + 1;
      r := Reply(Created("Conversation created successfully", ToDict(newConversation)), 201);
    }
  }
}
