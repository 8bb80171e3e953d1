/**
 * The server's chat messages: each belongs to a conversation and says
 * whether a person or the assistant wrote it.  Listing returns a
 * conversation's messages ordered by id; creating one checks its fields and
 * that the conversation exists.  The outcome of the commit is a parameter.
 */
module Messages {
  import opened Wrappers
  import opened Json
  import Conversations

  datatype Message = Message(id: nat, text: string, conversationId: int, isHuman: bool)

  function ToDict(m: Message): (d: Object)
    ensures d.Keys == {"id", "text", "conversationId", "isHuman"}
    ensures d["id"] == Num(m.id) && d["text"] == Str(m.text)
    ensures d["conversationId"] == Num(m.conversationId) && d["isHuman"] == Bool(m.isHuman)
  {
    map["id" := Num(m.id), "text" := Str(m.text), "conversationId" := Num(m.conversationId), "isHuman" := Bool(m.isHuman)]
  }

  /** `filter_by(conversationId=c).all()`: the conversation's messages, in table order. */
  function MessagesOf(rows: seq<Message>, conversationId: int): (r: seq<Message>)
    ensures forall m :: m in r <==> m in rows && m.conversationId == conversationId
  {
    if |rows| == 0 then []
    else
      var rest := MessagesOf(rows[1..], conversationId);
      assert forall m :: m in rows <==> m == rows[0] || m in rows[1..];
      if rows[0].conversationId == conversationId then [rows[0]] + rest else rest
  }

  predicate SortedById(ms: seq<Message>) {
    forall i, j :: 0 <= i < j < |ms| ==> ms[i].id <= ms[j].id
  }

  /** Places `m` before the first message whose id is not smaller. */
  function Insert(m: Message, ms: seq<Message>): (r: seq<Message>)
    ensures multiset(r) == multiset(ms) + multiset{m}
  {
    if |ms| == 0 then [m]
    else if m.id <= ms[0].id then [m] + ms
    else
      assert ms == [ms[0]] + ms[1..];
      [ms[0]] + Insert(m, ms[1..])
  }

  /** A lower bound on the ids of `m` and of `ms` bounds the ids of the result. */
  lemma {:induction false} InsertBound(m: Message, ms: seq<Message>, bound: int)
    requires m.id >= bound && forall k :: 0 <= k < |ms| ==> ms[k].id >= bound
    ensures forall k :: 0 <= k < |Insert(m, ms)| ==> Insert(m, ms)[k].id >= bound
  {
    if |ms| > 0 && m.id > ms[0].id {
      InsertBound(m, ms[1..], bound);
    }
  }

  /** Inserting into an ordered list keeps it ordered. */
  lemma {:induction false} InsertSorted(m: Message, ms: seq<Message>)
    requires SortedById(ms)
    ensures SortedById(Insert(m, ms))
  {
    if |ms| > 0 && m.id > ms[0].id {
      var rest := Insert(m, ms[1..]);
      InsertSorted(m, ms[1..]);
      InsertBound(m, ms[1..], ms[0].id);
      var r := [ms[0]] + rest;
      assert r == Insert(m, ms);
      forall i, j | 0 <= i < j < |r| ensures r[i].id <= r[j].id {
        if i > 0 {
          assert r[i] == rest[i - 1] && r[j] == rest[j - 1];
        } else {
          assert r[j] == rest[j - 1];
        }
      }
    }
  }

  /** `sorted(ms, key=id)`: the same messages, ordered by id. */
  function SortById(ms: seq<Message>): (r: seq<Message>)
    ensures SortedById(r)
    ensures multiset(r) == multiset(ms)
  {
    if |ms| == 0 then []
    else
      assert ms == [ms[0]] + ms[1..];
      var rest := SortById(ms[1..]);
      InsertSorted(ms[0], rest);
      Insert(ms[0], rest)
  }

  /**
   * `get_messages_by_conversation_id`: exactly that conversation's messages,
   * each as often as it is stored, in ascending id order.
   */
  function GetMessagesByConversationId(rows: seq<Message>, conversationId: int): (r: seq<Message>)
    ensures SortedById(r)
    ensures multiset(r) == multiset(MessagesOf(rows, conversationId))
    ensures forall m :: m in r <==> m in rows && m.conversationId == conversationId
  {
    var r := SortById(MessagesOf(rows, conversationId));
    assert forall m :: m in r <==> m in multiset(r);
    r
  }

  /** With distinct ids the listing is strictly increasing, so no two of its entries share an id. */
  lemma ListingStrictlyIncreasing(rows: seq<Message>, conversationId: int)
    requires forall i, j :: 0 <= i < j < |rows| ==> rows[i].id != rows[j].id
    ensures var r := GetMessagesByConversationId(rows, conversationId);
      forall i, j :: 0 <= i < j < |r| ==> r[i].id < r[j].id
  {
    var r := GetMessagesByConversationId(rows, conversationId);
    forall i, j | 0 <= i < j < |r| ensures r[i].id < r[j].id {
      assert r[i] in r && r[j] in r;
      if r[i].id == r[j].id {
        var a :| 0 <= a < |rows| && rows[a] == r[i];
        var b :| 0 <= b < |rows| && rows[b] == r[j];
        assert rows[a] == rows[b];
        if r[i] == r[j] {
          DuplicateInMultiset(r, i, j);
          MessageOccursOnce(rows, conversationId, r[i]);
        }
      }
    }
  }

  /** A sequence holding the same element at two positions holds it at least twice. */
  lemma DuplicateInMultiset(s: seq<Message>, i: nat, j: nat)
    requires i < j < |s| && s[i] == s[j]
    ensures multiset(s)[s[i]] >= 2
  {
    assert s == s[..j] + [s[j]] + s[j+1..];
    assert s[i] in s[..j];
  }

  /** With distinct ids a message occurs at most once in its conversation's rows. */
  lemma {:induction false} MessageOccursOnce(rows: seq<Message>, conversationId: int, m: Message)
    requires forall i, j :: 0 <= i < j < |rows| ==> rows[i].id != rows[j].id
    ensures multiset(MessagesOf(rows, conversationId))[m] <= 1
  {
    if |rows| > 0 {
      MessageOccursOnce(rows[1..], conversationId, m);
      if rows[0] == m {
        assert m !in rows[1..];
        assert m !in MessagesOf(rows[1..], conversationId);
      }
    }
  }

  datatype Body =
    | Created(message: string, createdMessage: Object)
    | ErrorBody(error: string)

  datatype Reply = Reply(body: Body, status: nat)

  /** `not text or not conversation_id or is_human is None`; `False` is accepted. */
  predicate MissingField(text: string, conversationId: int, isHuman: Option<bool>) {
    text == "" || conversationId == 0 || isHuman.None?
  }

  class MessageTable {
    var rows: seq<Message>
    var nextId: nat

    ghost predicate Valid()
      reads this
    {
      forall i :: 0 <= i < |rows| ==> rows[i].id < nextId
    }

    constructor ()
      ensures Valid() && rows == [] && nextId == 1
    {
      rows := [];
      nextId := 1;
    }

    /**
     * `create_message`.  A missing field gives 400 and an unknown
     * conversation 404, adding nothing.  Otherwise one message with the given
     * text, conversation and author is added and 201 answered; a failed
     * commit is rolled back and answered with 500.
     */
    method CreateMessage(text: string, conversationId: int, isHuman: Option<bool>,
                         conversations: seq<Conversations.Conversation>, commitSucceeds: bool)
      returns (r: Reply)
      requires Valid()
      modifies this
      ensures Valid()
      ensures MissingField(text, conversationId, isHuman) ==>
        r == Reply(ErrorBody("Text, conversationId, and isHuman are required"), 400)
      ensures !MissingField(text, conversationId, isHuman) && Conversations.FindConversation(conversations, conversationId).None? ==>
        r == Reply(ErrorBody("Conversation not found"), 404)
      ensures !MissingField(text, conversationId, isHuman) && Conversations.FindConversation(conversations, conversationId).Some? && !commitSucceeds ==>
        r == Reply(ErrorBody("An error occurred while creating a message"), 500)
      ensures r.status != 201 ==> rows == old(rows) && nextId == old(nextId)
      ensures r.status == 201 <==>
        !MissingField(text, conversationId, isHuman) && Conversations.FindConversation(conversations, conversationId).Some? && commitSucceeds
      ensures r.status == 201 ==>
        && rows == old(rows) + [Message(old(nextId), text, conversationId, isHuman.value)]
        && nextId == old(nextId) + 1
        && r.body == Created("Message created successfully", ToDict(Message(old(nextId), text, conversationId, isHuman.value)))
      ensures r.status in {201, 400, 404, 500}
    {
      if MissingField(text, conversationId, isHuman) {
        return Reply(ErrorBody("Text, conversationId, and isHuman are required"), 400);
      }
      var conversation := Conversations.FindConversation(conversations, conversationId);
      if conversation.None? {
        return Reply(ErrorBody("Conversation not found"), 404);
      }
      var newMessage := Message(nextId, text, conversationId, isHuman.value);
      if !commitSucceeds {
        return Reply(ErrorBody("An error occurred while creating a message"), 500);
      }
      rows := rows + [newMessage];
      nextId := nextId + 1;
      r := Reply(Created("Message created successfully", ToDict(newMessage)), 201);
    }
  }
}
