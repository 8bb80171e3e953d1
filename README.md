# LessNotes core, modelled in Dafny

LessNotes is a note-taking assistant. A React client lets a student sign up,
log in, edit a profile, drop files into a file explorer and chat. A Flask
server keeps users, uploaded files, conversations and messages in SQL tables
and builds prompts for a language model. This project models the core of
both sides and proves what each part promises.

Client side:

- `file_explorer.dfy`: the explorer's directory forest. The drop handler and
  the toggle handler share one recursive rewrite. The rendering rules decide
  which rows appear and how far each is indented.
- `chat.dfy`: the chat page as a class whose handlers update `messages`,
  `input` and the panel switches.
- `profile.dfy`: the account panel as a class. It fills its form from the
  stored user, edits fields, and stores the merged user without its password
  after a successful save. A `loading` flag is set during the save.
- `signup.dfy`: the sign-up schema rules and the multipart payload the page
  sends.
- `login.dfy`: the log-in schema, stripping the password from the returned
  user, and the submit handler.
- `browser.dfy`: the browser state the pages share: the `currentUser` entry
  of local storage and the current location.

Server side:

- `users.dfy`: the `user` table as a class. It covers creation with
  validation and uniqueness, the log-in lookup (e-mail first, then username),
  the partial update and the recursive listing of the user's folder.
- `files.dfy`: the `file` table with deduplication by (hash, owner).
- `conversations.dfy`: creating and listing conversations.
- `messages.dfy`: creating messages and listing them in id order.
- `llm.py` is modelled in `llm.dfy`: templates filled as `str.format` fills
  them, the chat-history text, the template choice and the prompts sent to
  the model.

Shared helpers are in `json.dfy`, `text.dfy` and `wrappers.dfy`:

- JSON values with JavaScript/Python truthiness;
- JavaScript `trim` and UTF-16 length;
- decimal rendering;
- Python `join` and `split`.

Several things become parameters: the database engine's commit outcome,
bcrypt, `compute_hash`, zod's e-mail check, the language model, document
retrieval, the clock and the folder tree on disk. Each handler is one
atomic step.

## Model

| member | source | states |
|---|---|---|
| FileExplorer.ApplyEdit | frontend/src/components/FileExplorer.tsx:56-84 | the matching directory keeps its id, name and subdirectories; a drop puts the dropped files after its files and keeps its flag; a toggle keeps its files and stores the negation of its flag, an absent flag reading as false |
| FileExplorer.UpdateDirectory | frontend/src/components/FileExplorer.tsx:54-70 | the rewritten forest has the same length, and every tree keeps its ids, names and shape |
| FileExplorer.UpdateNode | frontend/src/components/FileExplorer.tsx:55-68 | one node's rewrite keeps the node's ids, names and shape |
| FileExplorer.UpdateAt | frontend/src/components/FileExplorer.tsx:77-93 | for every path: the node exists before iff after; a node under a matching ancestor is untouched; a matching node not under a match gets the edit; every other node keeps id, name, files and flag |
| FileExplorer.UpdateAbsent | frontend/src/components/FileExplorer.tsx:54-70 | rewriting for an id that occurs nowhere returns the forest unchanged |
| FileExplorer.DropAt | frontend/src/components/FileExplorer.tsx:48-73 | after a drop, a matching directory not inside another match has its old files followed by the dropped ones, in order; every other directory keeps its files; ids, names and flags never change |
| FileExplorer.ToggleAt | frontend/src/components/FileExplorer.tsx:75-96 | after a toggle, a matching directory not inside another match has the negated flag (absent = false); every other flag is unchanged; ids, names and files never change |
| FileExplorer.HandlersIgnoreAbsentId | frontend/src/components/FileExplorer.tsx:53-95 | dropping on or toggling an id that is not in the forest leaves it equal to the input |
| FileExplorer.ToggleTwiceForest | frontend/src/components/FileExplorer.tsx:79-84 | toggling the same id twice restores every node's expanded state, reading an absent flag as false |
| FileExplorer.ToggleTwiceNode | frontend/src/components/FileExplorer.tsx:78-91 | the same for one tree |
| FileExplorer.FileRows | frontend/src/components/FileExplorer.tsx:121-133 | one file row per file, in order, with its name, size and the given padding |
| FileExplorer.RenderDirectory | frontend/src/components/FileExplorer.tsx:98-141 | the header row has padding level*16+8 and a down chevron iff expanded; a collapsed directory renders only its header; an expanded one follows it with its files at padding (level+1)*16+8 |
| FileExplorer.FileExplorerView | frontend/src/components/FileExplorer.tsx:151-160 | the drop placeholder shows exactly when the forest is empty |
| FileExplorer.RenderPadding | frontend/src/components/FileExplorer.tsx:103-125 | every row rendered at depth level or deeper is indented at least level*16+8 pixels, and 8 more than a multiple of 16 |
| FileExplorer.ToggleDocumentsExample | frontend/src/components/FileExplorer.tsx:21-41 | clicking "Documents" in the initial forest shows Documents (open), Projects one level in, then Downloads |
| Chat.ChatPage.constructor | frontend/src/pages/Chat.tsx:21-28 | the page starts with no messages, an empty input, both panels closed and the two initial history entries |
| Chat.ChatPage.SetInput | frontend/src/pages/Chat.tsx:130-135 | typing sets the input to the typed value |
| Chat.ChatPage.HandleSend | frontend/src/pages/Chat.tsx:30-51 | a blank input changes nothing; otherwise exactly two messages are appended: the untrimmed input as a user message, then the placeholder reply; the input is cleared; the history list never changes and the log stays well formed |
| Chat.LogGrows | frontend/src/pages/Chat.tsx:40-50 | appending a non-blank question and the placeholder reply keeps the log alternating user/reply |
| Chat.SendIgnoredIffAllWhitespace | frontend/src/pages/Chat.tsx:32 | a send is ignored exactly when the input consists only of whitespace |
| Chat.ChatPage.ToggleProfile | frontend/src/pages/Chat.tsx:86-92 | the profile button negates showProfile |
| Chat.ChatPage.CloseProfile | frontend/src/pages/Chat.tsx:97 | the back button sets showProfile to false |
| Chat.ChatPage.SetShowFileExplorer | frontend/src/pages/Chat.tsx:58-65 | "Add Files" and the dialog set showFileExplorer to the value given |
| Profile.FormFromUser | frontend/src/components/Profile.tsx:29-34 | the form has exactly the four fields, each the stored user's value when truthy, else "" |
| Profile.SavedUser | frontend/src/components/Profile.tsx:55-61 | the saved user has no password; every form field overrides the stored user's; every other stored field is kept |
| Profile.ProfilePage.constructor | frontend/src/components/Profile.tsx:16-23 | the page starts with the all-empty form, no user, not loading |
| Profile.ProfilePage.Load | frontend/src/components/Profile.tsx:24-36 | with a stored user, the page remembers it and fills the form from it; without one, nothing changes |
| Profile.ProfilePage.HandleChange | frontend/src/components/Profile.tsx:37-43 | the field named by the input id gets the value (the password input adds a password key); every other field keeps its value |
| Profile.ProfilePage.BeginSubmit | frontend/src/components/Profile.tsx:44-52 | loading is set; the PUT carries the stored user and the form, or nothing is sent when there is no stored user |
| Profile.ProfilePage.EndSubmit | frontend/src/components/Profile.tsx:52-78 | storage gets the saved user only after a successful PUT and is unchanged otherwise; loading is cleared in every case |
| Profile.SaveThenLoad | frontend/src/components/Profile.tsx:24-64 | reopening the panel on what a save stored shows the four fields as submitted |
| Signup.PictureIssues | frontend/src/pages/auth/Signup.tsx:38-49 | a picked file list passes iff it holds exactly one file of at most 5,000,000 bytes whose type is jpeg, jpg, png or webp |
| Signup.AcceptedIff | frontend/src/pages/auth/Signup.tsx:25-53 | the form is accepted iff username >= 3 code units, the e-mail passes, password >= 8 code units and meets the pattern, school and major non-empty, a picked picture passes, and confirmation equals password |
| Signup.FirstLineHasSingleLine | frontend/src/pages/auth/Signup.tsx:32 | on text without line breaks, a lookahead finds a character of the class iff the text contains one |
| Signup.PasswordPatternOnOneLine | frontend/src/pages/auth/Signup.tsx:31-34 | on a one-line password the pattern holds iff it has a lowercase letter, an uppercase letter and a digit |
| Signup.PasswordPatternStopsAtLineBreak | frontend/src/pages/auth/Signup.tsx:32 | "\nPassword1" contains all three classes yet fails the pattern |
| Signup.SignupPayload | frontend/src/pages/auth/Signup.tsx:92-99 | six entries: the first picked file or the text "undefined", then username, e-mail, password, school, major as typed |
| Signup.PayloadFields | frontend/src/pages/auth/Signup.tsx:92-99 | the payload keys are exactly profilePicture, username, email, password, school, major, and confirmPassword is not among them |
| Login.LoginIssues | frontend/src/pages/auth/Login.tsx:19-22 | an issue for the identifier iff it is empty, and for the password iff it has fewer than 8 code units; nothing else is checked |
| Login.SignupPasswordsLogIn | frontend/src/pages/auth/Login.tsx:21 | any password the sign-up schema accepts passes the log-in schema |
| Login.LoginSkipsCharacterClasses | frontend/src/pages/auth/Login.tsx:21 | "aaaaaaaa" passes log-in although it fails the sign-up pattern |
| Login.StripPassword | frontend/src/pages/auth/Login.tsx:53 | the stored user has every key of the returned user except password, each with its value |
| Login.StoredUserHasNoPassword | frontend/src/pages/auth/Login.tsx:53-56 | for a user the server returns, exactly id, username, email, profilePicture, school and major are stored |
| Login.OnSubmit | frontend/src/pages/auth/Login.tsx:38-66 | only a valid form whose POST succeeded stores the stripped user and moves to "/"; otherwise storage and location are unchanged |
| Users.ToDict | backend/src/modules/users/user.py:16-25 | the record has the seven columns, password hash included |
| Users.UserEqualsIffSameId | backend/src/modules/users/user.py:33-38 | two users are equal iff their ids agree; equality is symmetric; a user never equals None or a non-user |
| Users.FindFirst | backend/src/modules/users/user.py:97-100 | the first row whose column equals the value, or none when no row does |
| Users.GetUserByIdController | backend/src/modules/users/user.py:41-52 | the row with that id, or None when there is none |
| Users.GetUserByIdRoute | backend/src/modules/users/user.py:110-122 | 200 iff a row has that id, and then the body is exactly that row's record; otherwise 404 naming the id |
| Users.LoginCandidate | backend/src/modules/users/user.py:97-100 | an e-mail match is always taken; only when no e-mail matches is the username looked up, and then the row found has that username, found iff one exists |
| Users.LoginUser | backend/src/modules/users/user.py:95-108 | 201 only for the candidate account whose hash accepts the password, returning that account; 401 when no account is found or the check fails; 500 exactly when the check raises |
| Users.LoginNeverFailsOnHashedTable | backend/src/modules/users/user.py:102 | while every stored password is a hash, a log-in with a text password gets 201 or 401 |
| Users.EmailMatchShadowsUsername | backend/src/modules/users/user.py:97-100 | when e-mail matches exist and all fail the check, the log-in is refused even if a username match would pass |
| Users.MergeUpdate | backend/src/modules/users/user.py:173-178 | each of the six columns takes the body's value when the key is present, even null, and keeps the old value otherwise; the id never changes |
| Users.MergeUpdateLaws | backend/src/modules/users/user.py:173-178 | updating with the user's own record or an empty body changes nothing; an update applied twice equals applying it once |
| Users.HashPasswordField | backend/src/modules/users/user.py:63 | the body with a text password replaced by its hash; every other key unchanged |
| Users.MergeUpdateHashed | backend/src/modules/users/user.py:173-178 | the same merge, except that a new text password is stored hashed |
| Users.UpdatedPasswordBreaksLogin | backend/src/modules/users/user.py:175 | as written, after an update stores a plain password, log-in with it answers 500 |
| Users.HashedUpdateLogsIn | backend/src/modules/users/user.py:175 | with the corrected merge, log-in with the new password answers 201 |
| Users.NewRow | backend/src/modules/users/user.py:63-73 | the new row stores the hash of the password, never the password; the other columns come from the body |
| Users.UserTable.CreateUser | backend/src/modules/users/user.py:54-93 | a falsy username, e-mail or password gives 400 and adds nothing; a taken username or e-mail gives 400 and adds nothing; otherwise exactly one row with the hashed password is added and 201 returned; a failed folder creation answers 500 but keeps the row; the table's uniqueness and hashed-password invariants hold |
| Users.UserTable.UpdateUserByEmail | backend/src/modules/users/user.py:167-185 | 404 iff the e-mail is unknown; for a known e-mail, 500 iff the password sent is not text, the merge nulls the username or e-mail, or it takes another row's username or e-mail, and 200 otherwise; 200 replaces only that row, by the merge; every other outcome leaves the table unchanged; the invariants hold |
| Users.VisibleFiles | backend/src/modules/users/user.py:211 | exactly the names of the files among the children that do not start with '.' |
| Users.Subdirectories | backend/src/modules/users/user.py:213-216 | exactly the subdirectories among the children |
| Users.ListingsOf | backend/src/modules/users/user.py:213-217 | one entry per subdirectory |
| Users.ListingsOfEntries | backend/src/modules/users/user.py:206-217 | each entry is that subdirectory's own listing, and is null exactly when its name starts with '.' |
| Users.ListingHidesDotNames | backend/src/modules/users/user.py:206-217 | no directory or file name in a listing starts with '.' |
| Users.ListingsHideDotNames | backend/src/modules/users/user.py:213-217 | the same for every entry of a subdirectory list |
| Users.BuildDirectoryStructure | backend/src/modules/users/user.py:206-218 | the loop builds exactly the listing: a hidden directory gives null, others their name, visible files and one entry per subdirectory in listing order |
| Users.GetUserFiles | backend/src/modules/users/user.py:187-226 | 404 iff the user or the data entry is missing; 500 iff the data entry is a file; otherwise 200 with the folder's listing |
| Files.FileEqualsIgnoresOwner | backend/src/modules/files/file.py:30-35 | file rows are equal iff their hashes agree, whoever owns them; never equal to None or a non-file |
| Files.FindExisting | backend/src/modules/files/file.py:46 | the first row with that hash and owner, or none when no row has both |
| Files.FilesOfUser | backend/src/modules/files/file.py:72-75 | a row is listed iff it belongs to the user |
| Files.FilesOfUserAppend | backend/src/modules/files/file.py:74-75 | a new row shows up at the end of its owner's list and in no other user's |
| Files.DedupIsPerUser | backend/src/modules/files/file.py:46 | an existing row is found iff the owner's own files include that hash |
| Files.FileTable.CreateFile | backend/src/modules/files/file.py:37-69 | an empty path or zero owner raises and changes nothing; a known (hash, owner) adds no row and only resets that row's processed flag, path unchanged; otherwise exactly one unprocessed row is added; (hash, owner) stays unique |
| Conversations.ToDict | backend/src/modules/conversations/conversation.py:11-16 | the record has id, userId and time |
| Conversations.UserGuardNeverRejects | backend/src/modules/conversations/conversation.py:32-34 | for an id no user has, the route handler still answers a (body, status) pair, carrying 404; a non-empty tuple is true, so the guard lets every id through |
| Conversations.FindConversation | backend/src/modules/conversations/conversation.py:18-23 | the conversation with that id, or none when there is none |
| Conversations.ConversationsOf | backend/src/modules/conversations/conversation.py:56 | a conversation is listed iff it belongs to the user |
| Conversations.Dicts | backend/src/modules/conversations/conversation.py:60 | one record per conversation, in order |
| Conversations.GetConversationsByUserId | backend/src/modules/conversations/conversation.py:50-63 | 404 iff the user has no conversation; otherwise 200 with exactly the user's conversations |
| Conversations.ConversationTable.CreateConversation | backend/src/modules/conversations/conversation.py:25-48 | user id 0 answers an error with status 200 and adds nothing; otherwise, for any user id known or not, exactly one conversation for it is added and 201 returned; a failed commit is rolled back with 500 |
| Messages.ToDict | backend/src/modules/conversations/message.py:11-17 | the record has id, text, conversationId and isHuman |
| Messages.MessagesOf | backend/src/modules/conversations/message.py:21 | a message is selected iff it belongs to the conversation |
| Messages.Insert | backend/src/modules/conversations/message.py:22 | insertion adds exactly the one message |
| Messages.InsertSorted | backend/src/modules/conversations/message.py:22 | inserting into an id-ordered list keeps it ordered |
| Messages.SortById | backend/src/modules/conversations/message.py:22 | the result is ordered by id and a permutation of the input |
| Messages.GetMessagesByConversationId | backend/src/modules/conversations/message.py:19-24 | exactly the conversation's messages, each as often as stored, in ascending id order |
| Messages.ListingStrictlyIncreasing | backend/src/modules/conversations/message.py:19-24 | with distinct row ids the listing's ids strictly increase |
| Messages.MessageOccursOnce | backend/src/modules/conversations/message.py:21 | with distinct row ids a message is selected at most once |
| Messages.MessageTable.CreateMessage | backend/src/modules/conversations/message.py:26-50 | empty text, zero conversation id or absent isHuman gives 400 (False is accepted); an unknown conversation gives 404; otherwise a failed commit gives 500 and a successful one adds exactly one message and answers 201; every outcome but 201 leaves the table unchanged |
| Llm.Format | backend/src/modules/llm/llm.py:104-107 | formatting succeeds iff every field the template names has a value; otherwise KeyError for the first field without one |
| Llm.FormatAppend | backend/src/modules/llm/llm.py:139-145 | the format of two joined templates is the two formats joined |
| Llm.HistoryLineRoundTrip | backend/src/modules/llm/llm.py:94 | a history line reads back as its speaker and its text |
| Llm.ChatHistory | backend/src/modules/llm/llm.py:93-95 | one line per message, in order, each naming "Human" or "AI" by isHuman, followed by the text |
| Llm.HistoryTextRecoversMessages | backend/src/modules/llm/llm.py:99-102 | for a non-empty history without line breaks in texts, splitting the joined text gives back one line per message, speaker and text intact |
| Llm.RephrasePrompt | backend/src/modules/llm/llm.py:75-107 | the first prompt is the history template's text with the history and the question put in place |
| Llm.Attribute | backend/src/modules/llm/llm.py:128 | reading one of the seven columns gives its value; reading any other name, `name` among them, fails with AttributeError |
| Llm.SelectTemplate | backend/src/modules/llm/llm.py:127-133 | the chain raises when the name attribute does not exist and picks a template otherwise |
| Llm.SelectTemplateAsWritten | backend/src/modules/llm/llm.py:127-133 | as written, template choice raises AttributeError("name") for every user |
| Llm.ChooseTemplate | backend/src/modules/llm/llm.py:127-133 | corrected choice: name, school and major give the fullest template; name and school the next; a name alone the name template; no name the plain template, each iff its condition holds |
| Llm.PromptUsesOnlyKnownFacts | backend/src/modules/llm/llm.py:29-72 | the chosen prompt asks for the school iff name and school are known, for the major iff all three are, for the name iff it is known |
| Llm.TemplateFields | backend/src/modules/llm/llm.py:16-85 | the fields each of the five templates names |
| Llm.ListifyDocuments | backend/src/modules/llm/llm.py:155-156 | each document's content, in order |
| Llm.SummaryArgs | backend/src/modules/llm/llm.py:136-145 | the final format gets question, the contents joined by line breaks as context, and str of username, school and major |
| Llm.FallbackTemplateMissesChatHistory | backend/src/modules/llm/llm.py:139-145 | as written, the fallback template fails with KeyError("chat_history") for every user |
| Llm.ChosenTemplateFormats | backend/src/modules/llm/llm.py:139-145 | every corrected choice formats with the arguments given |
| Llm.SummarizeRagAsWritten | backend/src/modules/llm/llm.py:125-153 | as written, no prompt is sent and the call ends in AttributeError("name") |
| Llm.SummarizeRag | backend/src/modules/llm/llm.py:125-153 | corrected: exactly one prompt is sent, the chosen template filled in, and the reply is the result |
| Llm.AnswerUserPrompt | backend/src/modules/llm/llm.py:90-122 | an unknown user raises before any prompt is sent; otherwise two prompts go out, the rephrasing prompt over the id-ordered history and then the answer prompt for the rephrased question and its retrieved documents, and the result is the model's reply to the second |
| Text.Trim | frontend/src/pages/Chat.tsx:32 | the trimmed text is a slice of the input with only whitespace before and after it, and neither starts nor ends with whitespace |
| Text.TrimEmptyIffAllWhitespace | frontend/src/pages/Chat.tsx:32 | trimming gives "" iff every character is whitespace |
| Text.Utf16Length | frontend/src/pages/auth/Signup.tsx:26 | the length zod counts lies between the number of characters and twice that |
| Text.DecimalRoundTrip | frontend/src/pages/Chat.tsx:35 | the decimal text of a clock reading reads back as that number |
| Text.NatToDecimalInjective | frontend/src/pages/Chat.tsx:35-45 | different clock readings give different message ids |
| Text.SplitJoin | backend/src/modules/llm/llm.py:102 | lines without the separator are recovered by splitting what join produced |
| Json.Or | frontend/src/components/Profile.tsx:30-33 | JavaScript's or-operator gives its left operand when that is truthy, its right operand otherwise |
| Json.Get | backend/src/modules/users/user.py:60 | a present key gives its value, an absent one None |

## Findings

| source | as written | input that shows it | evidently intended | confidence | as-written member | corrected member |
|---|---|---|---|---|---|---|
| backend/src/modules/llm/llm.py:128-132 | template choice reads `user.name`, a column the `User` model does not have, so `summarize_rag` raises AttributeError before any prompt is sent | any user, e.g. username "ann", school "McGill", major "CS" | the name is the username, as the format call itself uses at line 142 | high; not executed | Llm.SelectTemplateAsWritten | Llm.ChooseTemplate |
| backend/src/modules/llm/llm.py:127-145 | the fallback for a user without a name is the chat-history template, which needs `chat_history`; the format call does not supply it, so formatting raises KeyError | once the name is read from `username`: a user whose username was updated to "" | the plain question-and-context template | medium; not executed | Llm.FallbackTemplateMissesChatHistory | Llm.ChosenTemplateFormats |
| backend/src/modules/users/user.py:175 | the update stores a new password as sent, while creation stores its bcrypt hash; the log-in check then gets a value that is not a hash, and bcrypt raises | update with body {"password": "NewPass123"}, then log in with that e-mail and "NewPass123": 500 | hash the new password, as line 63 does on creation | high; not executed | Users.UpdatedPasswordBreaksLogin | Users.HashedUpdateLogsIn |

The model uses the corrected members: `Llm.SummarizeRag` and `Llm.AnswerUserPrompt`
use `Llm.ChooseTemplate`. `Users.UserTable.UpdateUserByEmail` merges with
`Users.MergeUpdateHashed`, which hashes a new password. A password that is not
text cannot be hashed, so that update answers 500.

## Left out

- `backend/src/modules/rag/rag.py` and `rag_helpers.py` are not part of this model. They are thin wrappers over a vector store and embeddings, so retrieval is a function parameter.
- `backend/src/modules/utils/hash.py` is not part of this model. `compute_hash` is a function parameter, so it may also return the error text that file produces on failure.
- `create_directory_structure.py`, `main.py`, `App.tsx`, `Index.tsx` and `AlertComponent.tsx` are not part of this model. They hold filesystem writes, app wiring, routing and static UI.
- Network calls, toasts and the image preview are left out. The outcome of each request is a parameter. Local storage and navigation are the two fields of `Browser.Session`.
- Flask routing and argument binding are left out. `create_message` and `answer_user_prompt` take parameters their routes do not supply, and the model treats them as plain functions of those parameters.
- The sign-up page posts multipart form data while `create_user` reads a JSON body. The model of `create_user` takes the body as a JSON object.
- Request bodies hold only JSON scalars. Lists and nested objects as column values are not modelled.
- SQL column lengths and SQLite's type affinity are not modelled. A non-string username or e-mail is stored as given.
- Database failures other than the named commit outcomes are not modelled: connection loss, and a failing commit in `create_file`.
- Llm.AnswerUserPrompt: the call at line 120 passes two arguments to the retriever. The model takes retrieval as a function of (user id, question) and does not model the argument mismatch with `rag/rag.py`.
- Llm.ListifyDocuments: documents are read through the `content` attribute, as the code reads them. The document class of the retrieval library is not part of this model.
- Chat.ChatPage.HandleSend: the two clock readings are independent parameters. The model does not state that the second is at least the first.
- Conversations.ConversationTable.CreateConversation: the creation time is a parameter holding its ISO-8601 text.
- Conversations.GetConversationsByUserId: the 404 branch for an unknown user is unreachable, so its message, which would add an integer to a string, is not modelled.
- Messages.MessageTable.CreateMessage: text is a string and isHuman is absent or a boolean. Other JSON types for these fields are not modelled.
- Llm.Attribute: only the seven columns resolve. Other names a model instance has, such as `query`, `metadata` or `to_dict`, are treated here as missing; the code reads only the columns and `name`.
- Users.GetUserFiles: the 500 reply's `details` text (the exception message with the path) is not modelled, nor are listing failures other than a data entry that is a file.
- Users.LoginUser: bcrypt's check is a parameter. Only its rejection of a stored value that is not of the form `$2?$...` is modelled, and that rejection raises.
- The file size shown in KB uses floating point and is not modelled; rows carry the size in bytes.
- React's asynchronous state batching is not modelled; each handler is one atomic step.
