/**
 * Prompt assembly for the assistant.  A question is first rephrased from
 * the conversation's history, then answered from retrieved documents with a
 * prompt chosen by how much the user's profile says.  Templates are
 * sequences of literal text and named fields, filled in the way Python's
 * `str.format` fills keyword fields.  The language model and the document
 * retriever are function parameters.
 */
module Llm {
  import opened Wrappers
  import opened Json
  import Text
  import Users
  import Messages

  // ---------------------------------------------------------------------
  // Templates
  // ---------------------------------------------------------------------

  datatype Segment = Lit(text: string) | Field(key: string)

  type Template = seq<Segment>

  /** The exceptions the prompt code can raise. */
  datatype PyError =
    | AttributeError(attribute: string)
    | KeyError(key: string)
    | UserNotFound(message: string)

  /** The names of the fields a template refers to. */
  function Fields(t: Template): set<string> {
    set i | 0 <= i < |t| && t[i].Field? :: t[i].key
  }

  /** Every field at a position before `i` has a value. */
  predicate SuppliedBefore(t: Template, args: map<string, string>, i: nat)
    requires i <= |t|
  {
    forall j :: 0 <= j < i && t[j].Field? ==> t[j].key in args
  }

  /**
   * `t.format(**args)`: each field replaced by its value.  A field without a
   * value raises `KeyError` for the first such field; values nobody refers
   * to are ignored.
   */
  function Format(t: Template, args: map<string, string>): (r: Result<string, PyError>)
    ensures r.Ok? <==> Fields(t) <= args.Keys
    ensures r.Err? ==> r.error.KeyError?
    ensures r.Err? ==> exists i :: 0 <= i < |t| && t[i] == Field(r.error.key) && r.error.key !in args && SuppliedBefore(t, args, i)
  {
    if |t| == 0 then Ok("")
    else
      var rest := Format(t[1..], args);
      assert Fields(t) == (if t[0].Field? then {t[0].key} else {}) + Fields(t[1..]) by {
        forall k | k in Fields(t[1..]) ensures k in Fields(t) {
          var i :| 0 <= i < |t[1..]| && t[1..][i].Field? && t[1..][i].key == k;
          assert t[i + 1] == t[1..][i];
        }
      }
      match t[0]
      case Lit(s) =>
        if rest.Err? then
          var i :| 0 <= i < |t[1..]| && t[1..][i] == Field(rest.error.key) && rest.error.key !in args && SuppliedBefore(t[1..], args, i);
          assert t[i + 1] == t[1..][i];
          Err(rest.error)
        else Ok(s + rest.value)
      case Field(k) =>
        if k !in args then
          assert SuppliedBefore(t, args, 0);
          Err(KeyError(k))
        else if rest.Err? then
          var i :| 0 <= i < |t[1..]| && t[1..][i] == Field(rest.error.key) && rest.error.key !in args && SuppliedBefore(t[1..], args, i);
          assert t[i + 1] == t[1..][i];
          Err(rest.error)
        else Ok(args[k] + rest.value)
  }

  /** Formatting distributes over joining two templates. */
  lemma {:induction false} FormatAppend(t: Template, u: Template, args: map<string, string>)
    requires Fields(t) <= args.Keys && Fields(u) <= args.Keys
    ensures Fields(t + u) <= args.Keys
    ensures Format(t + u, args).value == Format(t, args).value + Format(u, args).value
  {
    FieldsAppend(t, u);
    if |t| > 0 {
      assert (t + u)[1..] == t[1..] + u;
      FormatAppend(t[1..], u, args);
    } else {
      assert t + u == u;
    }
  }

  lemma FieldsAppend(t: Template, u: Template)
    ensures Fields(t + u) == Fields(t) + Fields(u)
  {
    forall k | k in Fields(u) ensures k in Fields(t + u) {
      var i :| 0 <= i < |u| && u[i].Field? && u[i].key == k;
      assert (t + u)[|t| + i] == u[i];
    }
    forall k | k in Fields(t) ensures k in Fields(t + u) {
      var i :| 0 <= i < |t| && t[i].Field? && t[i].key == k;
      assert (t + u)[i] == t[i];
    }
    forall k | k in Fields(t + u) ensures k in Fields(t) + Fields(u) {
      var i :| 0 <= i < |t + u| && (t + u)[i].Field? && (t + u)[i].key == k;
      if i >= |t| {
        assert (t + u)[i] == u[i - |t|];
      }
    }
  }

  /** Formatting one field. */
  lemma FormatField(k: string, args: map<string, string>)
    requires k in args
    ensures Format([Field(k)], args) == Ok(args[k])
  {
    assert [Field(k)][1..] == [];
    assert Format([], args) == Ok("");
    assert args[k] + "" == args[k];
  }

  /** Formatting literal text. */
  lemma FormatLit(s: string, args: map<string, string>)
    ensures Format([Lit(s)], args) == Ok(s)
  {
    assert [Lit(s)][1..] == [];
    assert Format([], args) == Ok("");
    assert s + "" == s;
  }

  const Intro: string := "\nYou are an assistant for question-answering tasks. \n"
  const Rules: string :=
    "Use the following pieces of retrieved context to answer the question. \n"
    + "If you don't know the answer, just say that you don't know.\n"
    + "If the answer is not in the context, DO NOT answer the question.\n"

  const NameLine: Template := [Lit("You are assisting "), Field("user_name"), Lit(", talk to them with this name.\n")]
  const SchoolLine: Template := [Field("user_name"), Lit(" is a student at "), Field("user_school"), Lit(".\n")]
  const MajorLine: Template := [Lit("They are majoring in "), Field("user_major"), Lit(", take this into consideration.\n")]
  const QuestionAndContext: Template :=
    [Lit(Rules + "\nQuestion: "), Field("question"), Lit(" \n\nContext: "), Field("context"), Lit(" \n\nAnswer:\n")]

  /** `BASE_PROMPT`. */
  const BasePrompt: Template := [Lit(Intro)] + QuestionAndContext
  /** `BASE_PROMPT_WITH_NAME`. */
  const NamePrompt: Template := [Lit(Intro)] + NameLine + QuestionAndContext
  /** `BASE_PROMPT_WITH_NAME_AND_SCHOOL`. */
  const NameSchoolPrompt: Template := [Lit(Intro)] + NameLine + SchoolLine + QuestionAndContext
  /** `BASE_PROMPT_WITH_NAME_AND_SCHOOL_AND_MAJOR`. */
  const NameSchoolMajorPrompt: Template := [Lit(Intro)] + NameLine + SchoolLine + MajorLine + QuestionAndContext

  const RephraseIntro: string :=
    "\nGiven a chat history and the latest user question, \n"
    + "which might reference context in the chat history, \n"
    + "formulate a standalone question that can be understood \n"
    + "without the chat history. Do NOT answer the question; \n"
    + "just reformulate it if needed, or return it as is.\n\nChat history: "

  /** The shape of the history template, whatever its opening text. */
  function HistoryTemplate(intro: string): Template {
    [Lit(intro), Field("chat_history"), Lit("\n\nCurrent Question: "), Field("question"), Lit("\n")]
  }

  /** `BASE_PROMPT_WITH_CHAT_HISTORY`. */
  const ChatHistoryPrompt: Template := HistoryTemplate(RephraseIntro)

  // ---------------------------------------------------------------------
  // Chat history
  // ---------------------------------------------------------------------

  /** One line of the history: who spoke, then what was said. */
  function HistoryLine(m: Messages.Message): string {
    (if m.isHuman then "Human" else "AI") + ": " + m.text
  }

  /** Reads a history line back into its speaker and text. */
  function ParseHistoryLine(line: string): Option<(bool, string)> {
    if |line| >= 7 && line[..7] == "Human: " then Some((true, line[7..]))
    else if |line| >= 4 && line[..4] == "AI: " then Some((false, line[4..]))
    else None
  }

  /** A history line loses nothing: the speaker and the text can be read back from it. */
  lemma HistoryLineRoundTrip(m: Messages.Message)
    ensures ParseHistoryLine(HistoryLine(m)) == Some((m.isHuman, m.text))
  {
    var line := HistoryLine(m);
    if m.isHuman {
      assert line[..7] == "Human: ";
      assert line[7..] == m.text;
    } else {
      assert line[0] == 'A';
      assert line[..4] == "AI: ";
      assert line[4..] == m.text;
    }
  }

  /** The list comprehension over the conversation's messages: one line per message, in order. */
  function ChatHistory(messages: seq<Messages.Message>): (lines: seq<string>)
    ensures |lines| == |messages|
    ensures forall i :: 0 <= i < |messages| ==> ParseHistoryLine(lines[i]) == Some((messages[i].isHuman, messages[i].text))
  {
    var lines := seq(|messages|, i requires 0 <= i < |messages| => HistoryLine(messages[i]));
    forall i | 0 <= i < |messages| ensures ParseHistoryLine(lines[i]) == Some((messages[i].isHuman, messages[i].text)) {
      HistoryLineRoundTrip(messages[i]);
    }
    lines
  }

  const NoHistory: string := "No prior chat history available."

  /** The history as one text: a fixed sentence when empty, else the lines joined by line breaks. */
  function HistoryText(lines: seq<string>): string {
    if |lines| == 0 then NoHistory else Text.Join(lines, '\n')
  }

  /**
   * When no message text holds a line break, the history text splits back
   * into exactly one line per message, each naming its speaker and text.
   */
  lemma HistoryTextRecoversMessages(messages: seq<Messages.Message>)
    requires |messages| >= 1
    requires forall i :: 0 <= i < |messages| ==> '\n' !in messages[i].text
    ensures var parts := Text.Split(HistoryText(ChatHistory(messages)), '\n');
      && |parts| == |messages|
      && forall i :: 0 <= i < |messages| ==> ParseHistoryLine(parts[i]) == Some((messages[i].isHuman, messages[i].text))
  {
    var lines := ChatHistory(messages);
    forall i | 0 <= i < |lines| ensures '\n' !in lines[i] {
      assert lines[i] == HistoryLine(messages[i]);
    }
    Text.SplitJoin(lines, '\n');
  }

  lemma FormatHistoryTemplate(intro: string, history: string, question: string)
    ensures Format(HistoryTemplate(intro), map["chat_history" := history, "question" := question])
      == Ok(intro + history + "\n\nCurrent Question: " + question + "\n")
  {
    var args := map["chat_history" := history, "question" := question];
    var mid := "\n\nCurrent Question: ";
    var t3: Template := [Lit("\n")];
    var t2: Template := [Field("question")] + t3;
    var t1: Template := [Lit(mid)] + t2;
    var t0: Template := [Field("chat_history")] + t1;
    FormatLit("\n", args);
    FormatField("question", args);
    FormatAppend([Field("question")], t3, args);
    assert Format(t2, args).value == question + "\n";
    FormatLit(mid, args);
    FormatAppend([Lit(mid)], t2, args);
    assert Format(t1, args).value == mid + question + "\n";
    FormatField("chat_history", args);
    FormatAppend([Field("chat_history")], t1, args);
    assert Format(t0, args).value == history + mid + question + "\n";
    FormatLit(intro, args);
    FormatAppend([Lit(intro)], t0, args);
    assert HistoryTemplate(intro) == [Lit(intro)] + t0;
    var r := Format(HistoryTemplate(intro), args);
    assert r.Ok? && r.value == intro + (history + mid + question + "\n");
    assert intro + (history + mid + question + "\n") == intro + history + mid + question + "\n";
    assert r == Ok(intro + history + mid + question + "\n");
  }

  /** The first prompt: the history template with the history text and the question filled in. */
  function RephrasePrompt(history: string, question: string): (r: string)
    ensures r == RephraseIntro + history + "\n\nCurrent Question: " + question + "\n"
  {
    FormatHistoryTemplate(RephraseIntro, history, question);
    Format(ChatHistoryPrompt, map["chat_history" := history, "question" := question]).value
  }

  // ---------------------------------------------------------------------
  // Template choice and the answer prompt
  // ---------------------------------------------------------------------

  /** The attributes a `User` row has: its seven columns. */
  const UserAttributes: set<string> := {"id", "username", "email", "password", "profilePicture", "school", "major"}

  /** `getattr(user, attr)`: a column's value, or `AttributeError` for any other name. */
  function Attribute(u: Users.User, attr: string): (r: Result<Value, PyError>)
    ensures r.Err? <==> attr !in UserAttributes
    ensures r.Err? ==> r.error == AttributeError(attr)
  {
    if attr == "id" then Ok(Num(u.id))
    else if attr == "username" then Ok(u.username)
    else if attr == "email" then Ok(u.email)
    else if attr == "password" then Ok(u.password)
    else if attr == "profilePicture" then Ok(u.profilePicture)
    else if attr == "school" then Ok(u.school)
    else if attr == "major" then Ok(u.major)
    else Err(AttributeError(attr))
  }

  /**
   * The if/elif chain of `summarize_rag`, reading the name from attribute
   * `nameAttr` and starting from `fallback`: name, school and major give the
   * fullest template, name and school the next, a name alone the name
   * template.
   */
  function SelectTemplate(u: Users.User, nameAttr: string, fallback: Template): (r: Result<Template, PyError>)
    ensures nameAttr !in UserAttributes ==> r == Err(AttributeError(nameAttr))
    ensures nameAttr in UserAttributes ==> r.Ok?
  {
    match Attribute(u, nameAttr)
    case Err(e) => Err(e)
    case Ok(name) =>
      if Truthy(name) && Truthy(u.school) && Truthy(u.major) then Ok(NameSchoolMajorPrompt)
      else if Truthy(name) && Truthy(u.school) then Ok(NameSchoolPrompt)
      else if Truthy(name) then Ok(NamePrompt)
      else Ok(fallback)
  }

  /** As written: the name is read from `user.name`, and the fallback is the history template. */
  function SelectTemplateAsWritten(u: Users.User): (r: Result<Template, PyError>)
    ensures r == Err(AttributeError("name"))
  {
    SelectTemplate(u, "name", ChatHistoryPrompt)
  }

  /** Corrected: the name is the username, and a user without one gets the plain prompt. */
  function ChooseTemplate(u: Users.User): (r: Template)
    ensures r == NameSchoolMajorPrompt <==> Truthy(u.username) && Truthy(u.school) && Truthy(u.major)
    ensures r == NameSchoolPrompt <==> Truthy(u.username) && Truthy(u.school) && !Truthy(u.major)
    ensures r == NamePrompt <==> Truthy(u.username) && !Truthy(u.school)
    ensures r == BasePrompt <==> !Truthy(u.username)
  {
    TemplatesDistinct();
    SelectTemplate(u, "username", BasePrompt).value
  }

  lemma TemplatesDistinct()
    ensures |BasePrompt| == 6 && |NamePrompt| == 9 && |NameSchoolPrompt| == 13 && |NameSchoolMajorPrompt| == 16
  {
  }

  /** The chosen prompt mentions the school only for a named user with a school, and the major only when all three are known. */
  lemma PromptUsesOnlyKnownFacts(u: Users.User)
    ensures "user_school" in Fields(ChooseTemplate(u)) <==> Truthy(u.username) && Truthy(u.school)
    ensures "user_major" in Fields(ChooseTemplate(u)) <==> Truthy(u.username) && Truthy(u.school) && Truthy(u.major)
    ensures "user_name" in Fields(ChooseTemplate(u)) <==> Truthy(u.username)
  {
    TemplateFields();
  }

  lemma TemplateFields()
    ensures Fields(BasePrompt) == {"question", "context"}
    ensures Fields(NamePrompt) == {"user_name", "question", "context"}
    ensures Fields(NameSchoolPrompt) == {"user_name", "user_school", "question", "context"}
    ensures Fields(NameSchoolMajorPrompt) == {"user_name", "user_school", "user_major", "question", "context"}
    ensures Fields(ChatHistoryPrompt) == {"chat_history", "question"}
  {
    LineFields();
    PrefixFields();
    FieldsAppend([Lit(Intro)], QuestionAndContext);
    FieldsAppend([Lit(Intro)] + NameLine, QuestionAndContext);
    FieldsAppend([Lit(Intro)] + NameLine + SchoolLine, QuestionAndContext);
    FieldsAppend([Lit(Intro)] + NameLine + SchoolLine + MajorLine, QuestionAndContext);
  }

  /** The fields of the opening parts the four answer templates share. */
  lemma PrefixFields()
    ensures Fields([Lit(Intro)] + NameLine) == {"user_name"}
    ensures Fields([Lit(Intro)] + NameLine + SchoolLine) == {"user_name", "user_school"}
    ensures Fields([Lit(Intro)] + NameLine + SchoolLine + MajorLine) == {"user_name", "user_school", "user_major"}
  {
    LineFields();
    FieldsAppend([Lit(Intro)], NameLine);
    FieldsAppend([Lit(Intro)] + NameLine, SchoolLine);
    FieldsAppend([Lit(Intro)] + NameLine + SchoolLine, MajorLine);
  }

  lemma LineFields()
    ensures Fields([Lit(Intro)]) == {}
    ensures Fields(NameLine) == {"user_name"}
    ensures Fields(SchoolLine) == {"user_name", "user_school"}
    ensures Fields(MajorLine) == {"user_major"}
    ensures Fields(QuestionAndContext) == {"question", "context"}
    ensures Fields(ChatHistoryPrompt) == {"chat_history", "question"}
  {
    assert NameLine[1].key == "user_name";
    assert SchoolLine[0].key == "user_name" && SchoolLine[2].key == "user_school";
    assert MajorLine[1].key == "user_major";
    assert QuestionAndContext[1].key == "question" && QuestionAndContext[3].key == "context";
    assert ChatHistoryPrompt[1].key == "chat_history" && ChatHistoryPrompt[3].key == "question";
  }

  /** A retrieved document, read through its `content` attribute. */
  datatype Document = Document(content: string)

  /** `listify_documents`: each document's text, in order. */
  function ListifyDocuments(documents: seq<Document>): (r: seq<string>)
    ensures |r| == |documents| && forall i :: 0 <= i < |documents| ==> r[i] == documents[i].content
  {
    seq(|documents|, i requires 0 <= i < |documents| => documents[i].content)
  }

  /** The keyword arguments of the final `.format` call; column values go through `str`. */
  function SummaryArgs(u: Users.User, query: string, documents: seq<Document>): (args: map<string, string>)
    ensures args.Keys == {"question", "context", "user_name", "user_school", "user_major"}
    ensures args["context"] == Text.Join(ListifyDocuments(documents), '\n')
    ensures args["question"] == query
    ensures args["user_name"] == PyStr(u.username) && args["user_school"] == PyStr(u.school) && args["user_major"] == PyStr(u.major)
  {
    map["question" := query,
        "context" := Text.Join(ListifyDocuments(documents), '\n'),
        "user_name" := PyStr(u.username),
        "user_school" := PyStr(u.school),
        "user_major" := PyStr(u.major)]
  }

  /** As written, the fallback template cannot be formatted: nothing supplies `chat_history`. */
  lemma FallbackTemplateMissesChatHistory(u: Users.User, query: string, documents: seq<Document>)
    ensures Format(ChatHistoryPrompt, SummaryArgs(u, query, documents)) == Err(KeyError("chat_history"))
  {
    var args := SummaryArgs(u, query, documents);
    assert ChatHistoryPrompt[1..][1..][1..][1..][1..] == [];
    assert "chat_history" !in args;
  }

  /** With the corrected choice, every template the chain can pick formats with the arguments given. */
  lemma ChosenTemplateFormats(u: Users.User, query: string, documents: seq<Document>)
    ensures Format(ChooseTemplate(u), SummaryArgs(u, query, documents)).Ok?
  {
    TemplateFields();
  }

  /** The prompts sent to the language model, in order, and how the request ended. */
  datatype Outcome = Outcome(prompts: seq<string>, result: Result<string, PyError>)

  /**
   * `summarize_rag` as written: the template choice raises before any
   * prompt is sent.
   */
  function SummarizeRagAsWritten(u: Users.User, query: string, documents: seq<Document>, llm: string -> string): (r: Outcome)
    ensures r == Outcome([], Err(AttributeError("name")))
  {
    match SelectTemplateAsWritten(u)
    case Err(e) => Outcome([], Err(e))
    case Ok(t) =>
      match Format(t, SummaryArgs(u, query, documents))
      case Err(e) => Outcome([], Err(e))
      case Ok(prompt) => Outcome([prompt], Ok(llm(prompt)))
  }

  /**
   * `summarize_rag`, corrected: one prompt is sent, the chosen template
   * filled with the question, the documents and the user's columns, and the
   * model's reply is the result.
   */
  function SummarizeRag(u: Users.User, query: string, documents: seq<Document>, llm: string -> string): (r: Outcome)
    ensures |r.prompts| == 1 && r.result == Ok(llm(r.prompts[0]))
    ensures Format(ChooseTemplate(u), SummaryArgs(u, query, documents)) == Ok(r.prompts[0])
  {
    ChosenTemplateFormats(u, query, documents);
    var prompt := Format(ChooseTemplate(u), SummaryArgs(u, query, documents)).value;
    Outcome([prompt], Ok(llm(prompt)))
  }

  /**
   * `answer_user_prompt`: the conversation's history, ordered by message id,
   * is turned into the rephrasing prompt.  An unknown user raises before
   * the model is called.  Otherwise the rephrased question is sent, the
   * documents retrieved for it, and the answer prompt sent.
   */
  function AnswerUserPrompt(users: seq<Users.User>, messageRows: seq<Messages.Message>, userId: int, prompt: string,
                            conversationId: int, llm: string -> string, retrieve: (nat, string) -> seq<Document>): (r: Outcome)
    ensures Users.GetUserByIdController(users, userId).None? ==>
      r == Outcome([], Err(UserNotFound("User with id " + Text.IntToDecimal(userId) + " not found")))
    ensures Users.GetUserByIdController(users, userId).Some? ==>
      && |r.prompts| == 2 && r.result == Ok(llm(r.prompts[1]))
      && r.prompts[0] == RephrasePrompt(HistoryText(ChatHistory(Messages.GetMessagesByConversationId(messageRows, conversationId))), prompt)
      && r.prompts[1] == SummarizeRag(Users.GetUserByIdController(users, userId).value, llm(r.prompts[0]),
                                       retrieve(userId as nat, llm(r.prompts[0])), llm).prompts[0]
  {
    var messages := Messages.GetMessagesByConversationId(messageRows, conversationId);
    var history := ChatHistory(messages);
    var formatted := RephrasePrompt(HistoryText(history), prompt);
    match Users.GetUserByIdController(users, userId)
    case None => Outcome([], Err(UserNotFound("User with id " + Text.IntToDecimal(userId) + " not found")))
    case Some(user) =>
      var contextualized := llm(formatted);
      var documents := retrieve(user.id, contextualized);
      var summary := SummarizeRag(user, contextualized, documents, llm);
      Outcome([formatted] + summary.prompts, summary.result)
  }
}
