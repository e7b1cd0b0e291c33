/**
 * Human-in-the-loop questions shared by several processes (src/loopmaster/mcp/message_store.py).
 * Every change of a row is one guarded SQL statement, so the statements of all processes
 * interleave as the atomic actions below.
 */
module Messages {
  import opened Values

  datatype MessageStatus = Pending | Answered | Expired | CancelledQuestion

  datatype Answer = Answer(answer: Value, author: string)

  datatype Message = Message(
    jobId: string, fromAddr: string, text: string, options: seq<string>, defaultAnswer: Option<Value>,
    status: MessageStatus, expiresAt: Option<real>, answered: Option<Answer>)

  type Table = map<string, Message>

  /** The identity of a question: one per job and asking step (the digest is taken as injective). */
  function MessageId(jobId: string, fromAddr: string): string {
    jobId + "|" + fromAddr
  }

  datatype Action =
    | CreateQuestion(question: Message)
    | AnswerQuestion(id: string, answer: Answer)
    | SweepExpired(now: real)
    | CancelPending(jobId: string)
    | Archive(ids: set<string>)

  predicate ExpiredAt(m: Message, now: real) {
    m.status == Pending && m.expiresAt.Some? && m.expiresAt.value < now
  }

  function Next(t: Table, a: Action): Table {
    match a
    case CreateQuestion(q) =>
      var id := MessageId(q.jobId, q.fromAddr);
      if id in t then t else t[id := q.(status := Pending, answered := None)]
    case AnswerQuestion(id, answer) =>
      if id in t && t[id].status == Pending then t[id := t[id].(status := Answered, answered := Some(answer))] else t
    case SweepExpired(now) =>
      map id | id in t :: if ExpiredAt(t[id], now) then t[id].(status := Expired) else t[id]
    case CancelPending(jobId) =>
      map id | id in t :: if t[id].jobId == jobId && t[id].status == Pending
                          then t[id].(status := CancelledQuestion) else t[id]
    case Archive(ids) => t - set id | id in ids && id in t && t[id].status != Pending
  }

  function Run(t: Table, actions: seq<Action>): Table
    decreases |actions|
  {
    if actions == [] then t else Run(Next(t, actions[0]), actions[1..])
  }

  /** Answered rows, and only they, carry an answer. */
  predicate WellFormed(t: Table) {
    forall id :: id in t ==> (t[id].answered.Some? <==> t[id].status == Answered)
  }

  /** The only ways a row can change in one step: out of pending, with the fields that go with it. */
  lemma QuestionStep(t: Table, a: Action, id: string)
    requires WellFormed(t)
    ensures WellFormed(Next(t, a))
    ensures id in t && t[id].status != Pending ==> id !in Next(t, a) || Next(t, a)[id] == t[id]
    ensures id in t && t[id].status == Pending ==>
              id in Next(t, a) &&
              (|| Next(t, a)[id] == t[id]
               || (a.AnswerQuestion? && a.id == id
                   && Next(t, a)[id] == t[id].(status := Answered, answered := Some(a.answer)))
               || (a.SweepExpired? && ExpiredAt(t[id], a.now) && Next(t, a)[id] == t[id].(status := Expired))
               || (a.CancelPending? && a.jobId == t[id].jobId && Next(t, a)[id] == t[id].(status := CancelledQuestion)))
  {}

  /** What each call does to a row, field by field. */
  lemma CallEffects(t: Table, q: Message, id: string, answer: Answer, now: real, jobId: string, ids: set<string>)
    ensures var u := Next(t, CreateQuestion(q));
            MessageId(q.jobId, q.fromAddr) !in t ==>
              && u.Keys == t.Keys + {MessageId(q.jobId, q.fromAddr)}
              && u[MessageId(q.jobId, q.fromAddr)] ==
                   Message(q.jobId, q.fromAddr, q.text, q.options, q.defaultAnswer, Pending, q.expiresAt, None)
              && forall n :: n in t ==> u[n] == t[n]
    ensures MessageId(q.jobId, q.fromAddr) in t ==> Next(t, CreateQuestion(q)) == t
    ensures id in t && t[id].status == Pending ==>
              Next(t, AnswerQuestion(id, answer)) == t[id := t[id].(status := Answered, answered := Some(answer))]
    ensures id !in t || t[id].status != Pending ==> Next(t, AnswerQuestion(id, answer)) == t
    ensures var u := Next(t, SweepExpired(now));
            && u.Keys == t.Keys
            && forall n :: n in t ==>
                 u[n] == if t[n].status == Pending && t[n].expiresAt.Some? && t[n].expiresAt.value < now
                         then t[n].(status := Expired) else t[n]
    ensures var u := Next(t, CancelPending(jobId));
            && u.Keys == t.Keys
            && forall n :: n in t ==>
                 u[n] == if t[n].status == Pending && t[n].jobId == jobId
                         then t[n].(status := CancelledQuestion) else t[n]
    ensures var u := Next(t, Archive(ids));
            && (forall n :: n in u <==> n in t && !(n in ids && t[n].status != Pending))
            && forall n :: n in u ==> u[n] == t[n]
  {}

  /** Within one job the asking step identifies a question. */
  lemma OneQuestionPerStep(jobId: string, a: string, b: string)
    ensures MessageId(jobId, a) == MessageId(jobId, b) <==> a == b
    ensures MessageId("job", "loop:l#s") == "job|loop:l#s"
  {
    if MessageId(jobId, a) == MessageId(jobId, b) {
      assert (jobId + "|" + a)[|jobId| + 1..] == a && (jobId + "|" + b)[|jobId| + 1..] == b;
    }
  }

  /** No step of the run archives the row. */
  predicate Unarchived(actions: seq<Action>, id: string) {
    forall a :: a in actions && a.Archive? ==> id !in a.ids
  }

  /**
   * Questions are write-once: in any interleaving, a row that has left pending keeps status and
   * answer for as long as it exists, so it leaves pending at most once.
   */
  lemma {:induction false} WriteOnce(t: Table, actions: seq<Action>, id: string)
    requires WellFormed(t) && id in t && Unarchived(actions, id)
    ensures WellFormed(Run(t, actions)) && id in Run(t, actions)
    ensures t[id].status != Pending ==> Run(t, actions)[id] == t[id]
    ensures Run(t, actions)[id].status == Pending ==> Run(t, actions)[id] == t[id]
    ensures Run(t, actions)[id].(status := Pending, answered := None) == t[id].(status := Pending, answered := None)
    decreases |actions|
  {
    if actions != [] {
      assert actions[0] in actions;
      QuestionStep(t, actions[0], id);
      assert forall a :: a in actions[1..] ==> a in actions;
      WriteOnce(Next(t, actions[0]), actions[1..], id);
    }
  }

  lemma {:induction false} RunKeepsWellFormed(t: Table, actions: seq<Action>)
    requires WellFormed(t)
    ensures WellFormed(Run(t, actions))
    decreases |actions|
  {
    if actions != [] {
      QuestionStep(t, actions[0], "");
      RunKeepsWellFormed(Next(t, actions[0]), actions[1..]);
    }
  }

  /** Of two answers to one question, in any interleaving, only the first can win. */
  lemma LaterAnswerIgnored(t: Table, a: Answer, between: seq<Action>, b: Answer, id: string)
    requires WellFormed(t) && id in t && t[id].status == Pending && Unarchived(between, id)
    ensures var end := Next(Run(Next(t, AnswerQuestion(id, a)), between), AnswerQuestion(id, b));
            id in end && end[id].status == Answered && end[id].answered == Some(a)
  {
    QuestionStep(t, AnswerQuestion(id, a), id);
    WriteOnce(Next(t, AnswerQuestion(id, a)), between, id);
  }

  datatype Refusal = NotFound | Already(status: MessageStatus) | PoisonReference

  class MessageStore {
    /** Recognises template-like placeholders. */
    const poison: string -> bool
    /** The text form of a value. */
    const show: Value -> string
    var messages: Table

    constructor (poison: string -> bool, show: Value -> string)
      ensures this.poison == poison && this.show == show && messages == map[]
    {
      this.poison, this.show := poison, show;
      messages := map[];
    }

    /** Whatever other processes do to the table. */
    method Interfere(actions: seq<Action>)
      modifies this
      ensures messages == Run(old(messages), actions)
    {
      var i := 0;
      while i < |actions|
        invariant 0 <= i <= |actions|
        invariant Run(messages, actions[i..]) == Run(old(messages), actions)
      {
        assert actions[i..][0] == actions[i] && actions[i..][1..] == actions[i + 1..];
        messages := Next(messages, actions[i]);
        i := i + 1;
      }
    }

    /** What is searched for placeholders: the question, its default answer as text, and its options. */
    function Texts(q: Message): seq<string> {
      [q.text] + (if q.defaultAnswer.Some? then [show(q.defaultAnswer.value)] else []) + q.options
    }

    lemma TextsAre(q: Message)
      ensures (exists i :: 0 <= i < |Texts(q)| && Poisoned(Texts(q)[i])) <==>
                || Poisoned(q.text) || (q.defaultAnswer.Some? && Poisoned(show(q.defaultAnswer.value)))
                || exists o :: o in q.options && Poisoned(o)
    {
      forall t ensures t in Texts(q) <==>
                 || t == q.text || (q.defaultAnswer.Some? && t == show(q.defaultAnswer.value)) || t in q.options {}
      if i :| 0 <= i < |Texts(q)| && Poisoned(Texts(q)[i]) { assert Texts(q)[i] in Texts(q); }
      forall t | t in Texts(q) && Poisoned(t) ensures exists i :: 0 <= i < |Texts(q)| && Poisoned(Texts(q)[i]) {
        var i :| 0 <= i < |Texts(q)| && Texts(q)[i] == t;
      }
    }

    /** A text that is not empty and holds a placeholder. */
    predicate Poisoned(text: string) {
      text != "" && poison(text)
    }

    /** Register a question unless one of its texts holds a placeholder; idempotent per identity. */
    method Create(q: Message) returns (r: Result<string, Refusal>)
      modifies this
      ensures r == Err(PoisonReference) <==> exists i :: 0 <= i < |Texts(q)| && Texts(q)[i] != "" && poison(Texts(q)[i])
      ensures r == Err(PoisonReference) <==>
                || Poisoned(q.text) || (q.defaultAnswer.Some? && Poisoned(show(q.defaultAnswer.value)))
                || exists o :: o in q.options && Poisoned(o)
      ensures r.Err? ==> r == Err(PoisonReference) && messages == old(messages)
      ensures r.Ok? ==> r.value == MessageId(q.jobId, q.fromAddr) && r.value in messages
                        && messages == Next(old(messages), CreateQuestion(q))
    {
      var texts := Texts(q);
      var i := 0;
      TextsAre(q);
      while i < |texts|
        invariant 0 <= i <= |texts|
        invariant forall k :: 0 <= k < i ==> texts[k] == "" || !poison(texts[k])
      {
        if texts[i] != "" && poison(texts[i]) { return Err(PoisonReference); }
        i := i + 1;
      }
      var id := MessageId(q.jobId, q.fromAddr);
      if id !in messages { messages := messages[id := q.(status := Pending, answered := None)]; }
      r := Ok(id);
    }

    /** Answer a pending question; anything else is refused and changes nothing. */
    method AnswerPending(id: string, answer: Answer) returns (r: Result<Message, Refusal>)
      modifies this
      ensures messages == Next(old(messages), AnswerQuestion(id, answer))
      ensures r.Ok? <==> id in old(messages) && old(messages)[id].status == Pending
      ensures r.Ok? ==> id in messages && r.value == messages[id] && r.value.answered == Some(answer)
      ensures r == Err(NotFound) <==> id !in old(messages)
      ensures id in old(messages) && r.Err? ==> r == Err(Already(old(messages)[id].status))
    {
      if id in messages && messages[id].status == Pending {
        messages := messages[id := messages[id].(status := Answered, answered := Some(answer))];
        return Ok(messages[id]);
      }
      r := if id !in messages then Err(NotFound) else Err(Already(messages[id].status));
    }

    method SweepExpiredQuestions(now: real) returns (swept: nat)
      modifies this
      ensures messages == Next(old(messages), SweepExpired(now))
      ensures swept == |set id | id in old(messages) && ExpiredAt(old(messages)[id], now)|
    {
      swept := |set id | id in messages && ExpiredAt(messages[id], now)|;
      messages := map id | id in messages ::
        if ExpiredAt(messages[id], now) then messages[id].(status := Expired) else messages[id];
    }

    method CancelPendingMessages(jobId: string) returns (cancelled: nat)
      modifies this
      ensures messages == Next(old(messages), CancelPending(jobId))
      ensures cancelled == |set id | id in old(messages) && old(messages)[id].jobId == jobId
                && old(messages)[id].status == Pending|
    {
      cancelled := |set id | id in messages && messages[id].jobId == jobId && messages[id].status == Pending|;
      messages := map id | id in messages ::
        if messages[id].jobId == jobId && messages[id].status == Pending
        then messages[id].(status := CancelledQuestion) else messages[id];
    }
  }
}
