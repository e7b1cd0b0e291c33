/**
 * The step that waits for a person (src/loopmaster/executors/human_input.py): it registers a
 * question and polls until it is answered, cancelled, or out of time and escalations.
 */
module HumanInput {
  import opened Values
  import opened Messages

  datatype TimeoutPolicy = DefaultAnswer | Skip | Fail | Escalate

  const MAX_ESCALATIONS: nat := 3

  lemma ThreeEscalations()
    ensures MAX_ESCALATIONS == 3
  {}

  datatype Resolution = ByAnswer | Auto

  datatype Problem = Poisoned | InputCancelled | TimedOut | EscalationsExhausted | QuestionLost

  /** `resolved` keeps its initial value on failures, so only a successful result is a real answer. */
  datatype HumanInputResult = HumanInputResult(
    msgId: string, resolved: Resolution, answer: Option<Value>, success: bool, error: Option<Problem>)

  function Repeated(n: nat, x: real): real {
    if n == 0 then 0.0 else x + Repeated(n - 1, x)
  }

  lemma {:induction false} RepeatedIsProduct(n: nat, x: real)
    ensures Repeated(n, x) == (n as real) * x
  {
    if n > 0 { RepeatedIsProduct(n - 1, x); }
  }

  lemma {:induction false} RepeatedGrows(n: nat, m: nat, x: real)
    requires n <= m && x >= 0.0
    ensures Repeated(n, x) <= Repeated(m, x)
    decreases m
  {
    if n < m { RepeatedGrows(n, m - 1, x); }
  }

  predicate HasAnswer(t: Table, id: string) {
    id in t && t[id].status == Answered
  }

  predicate Withdrawn(t: Table, id: string) {
    id in t && t[id].status == CancelledQuestion
  }

  function AnswerOf(t: Table, id: string): Option<Value>
    requires id in t
  {
    if t[id].answered.Some? then Some(t[id].answered.value.answer) else None
  }

  /** What the waiting step sees at its n-th look: `others(i)` is what happens before look `i + 1`. */
  function Seen(t: Table, others: nat -> seq<Action>, n: nat): Table {
    if n == 0 then t else Run(Seen(t, others, n - 1), others(n - 1))
  }

  /** No look before the n-th found the question answered or cancelled. */
  ghost predicate Undecided(t: Table, others: nat -> seq<Action>, id: string, n: nat) {
    forall j: nat :: 1 <= j < n ==> !HasAnswer(Seen(t, others, j), id) && !Withdrawn(Seen(t, others, j), id)
  }

  /** What one look at the table comes to. */
  function Found(t: Table, id: string): Option<HumanInputResult> {
    if HasAnswer(t, id) then Some(HumanInputResult(id, ByAnswer, AnswerOf(t, id), true, None))
    else if Withdrawn(t, id) then Some(HumanInputResult(id, ByAnswer, None, false, Some(InputCancelled)))
    else None
  }

  lemma OneMoreLook(t: Table, others: nat -> seq<Action>, id: string, n: nat)
    requires n > 0 && Undecided(t, others, id, n)
    requires !HasAnswer(Seen(t, others, n), id) && !Withdrawn(Seen(t, others, n), id)
    ensures Undecided(t, others, id, n + 1)
  {}

  class HumanInputExecutor {
    const timeout: Option<real>
    const defaultAnswer: Option<Value>
    const onTimeout: TimeoutPolicy
    const poll: real

    constructor (timeout: Option<real>, defaultAnswer: Option<Value>, onTimeout: TimeoutPolicy, poll: real)
      ensures this.timeout == timeout && this.defaultAnswer == defaultAnswer
      ensures this.onTimeout == onTimeout && this.poll == poll
    {
      this.timeout := timeout;
      this.defaultAnswer := defaultAnswer;
      this.onTimeout := onTimeout;
      this.poll := poll;
    }

    /**
     * Register the question, poll, and after the deadline follow the timeout policy. `others(i)` is
     * what other processes do to the table before the i-th time this one looks at it; the clock
     * moves by sleeping only. The wait is cut off after `sleeps` sleeps, with None: only without a
     * timeout can that happen however many are allowed.
     */
    method Execute(store: MessageStore, q: Message, others: nat -> seq<Action>, start: real, sleeps: nat)
      returns (r: Option<HumanInputResult>, now: real, escalations: nat, looks: nat, expired: bool)
      requires WellFormed(store.messages) && poll > 0.0 && (timeout.Some? ==> timeout.value >= 0.0)
      modifies store
      ensures WellFormed(store.messages)
      // a question with a placeholder is not asked
      ensures looks == 0 <==>
                || store.Poisoned(q.text)
                || (q.defaultAnswer.Some? && store.Poisoned(store.show(q.defaultAnswer.value)))
                || exists o :: o in q.options && store.Poisoned(o)
      ensures looks == 0 ==>
                && r == Some(HumanInputResult("", ByAnswer, None, false, Some(Poisoned))) && now == start
                && escalations == 0 && !expired && store.messages == old(store.messages)
      // any other is registered, and the wait is as it should be
      ensures var t, id := Next(old(store.messages), CreateQuestion(q)), MessageId(q.jobId, q.fromAddr);
              looks > 0 ==>
                && Timed(start, now, sleeps, escalations, looks, expired)
                && EndsAtLook(t, id, others, r, escalations, looks, expired, sleeps)
                && (expired ==> r.Some? && PolicySpeaks(t, id, others, r.value, looks, now, store.messages))
                && (!expired ==> store.messages == Seen(t, others, looks))
    {
      QuestionStep(store.messages, CreateQuestion(q), "");
      var created := store.Create(q);
      if created.Err? {
        r := Some(HumanInputResult("", ByAnswer, None, false, Some(Poisoned)));
        now, escalations, looks, expired := start, 0, 0, false;
      } else {
        r, now, escalations, looks, expired := Wait(store, created.value, others, start, sleeps);
        if expired { r := Finish(store, created.value, others, looks, now); }
      }
    }

    /**
     * The wait ends at the first look that finds an answer or a cancellation, with what it finds; if
     * none does, it expires, or is cut off after all sleeps.
     */
    ghost predicate EndsAtLook(
        t: Table, id: string, others: nat -> seq<Action>, r: Option<HumanInputResult>, escalations: nat, looks: nat,
        expired: bool, sleeps: nat)
    {
      && Undecided(t, others, id, looks)
      && (HasAnswer(Seen(t, others, looks), id) ==>
            !expired && r == Some(HumanInputResult(id, ByAnswer, AnswerOf(Seen(t, others, looks), id), true, None)))
      && (Withdrawn(Seen(t, others, looks), id) ==>
            !expired && r == Some(HumanInputResult(id, ByAnswer, None, false, Some(InputCancelled))))
      && (!HasAnswer(Seen(t, others, looks), id) && !Withdrawn(Seen(t, others, looks), id) ==>
            expired || (r.None? && looks == sleeps + escalations + 1))
    }

    /**
     * After the time is up: an answer at one more look counts. Otherwise escalation has failed; a
     * default answers the question if it is still pending, and succeeds unless the question is gone;
     * and anything else times out.
     */
    ghost predicate PolicySpeaks(
        t: Table, id: string, others: nat -> seq<Action>, r: HumanInputResult, looks: nat, now: real,
        end: Table)
    {
      var late, last := Seen(t, others, looks + 1), Seen(t, others, looks + 2);
      if HasAnswer(late, id) then
        end == late && r == HumanInputResult(id, ByAnswer, AnswerOf(late, id), true, None)
      else if onTimeout == Escalate then
        end == late && r == HumanInputResult(id, ByAnswer, None, false, Some(EscalationsExhausted))
      else if onTimeout == DefaultAnswer && defaultAnswer.Some? then
        && (id !in last ==> end == last && r == HumanInputResult(id, ByAnswer, None, false, Some(QuestionLost)))
        && (id in last ==> r == HumanInputResult(id, Auto, defaultAnswer, true, None))
        && (id in last && last[id].status != Pending ==> end == last)
        && (id in last && last[id].status == Pending ==>
              end == last[id := last[id].(status := Answered, answered := Some(Answer(defaultAnswer.value, "auto")))])
      else
        end == Next(last, SweepExpired(now)) && r == HumanInputResult(id, ByAnswer, None, false, Some(TimedOut))
    }

    /** The clock after `slept` sleeps, and where the deadline stands after `escalations` escalations. */
    ghost predicate OnTime(start: real, now: real, deadline: Option<real>, slept: nat, escalations: nat) {
      && poll > 0.0 && (timeout.Some? ==> timeout.value >= 0.0)
      && now == start + Repeated(slept, poll)
      && escalations <= MAX_ESCALATIONS && (escalations > 0 ==> onTimeout == Escalate)
      && (timeout.Some? <==> deadline.Some?) && (timeout.None? ==> escalations == 0)
      && (timeout.Some? ==>
            && now <= start + Repeated(escalations + 1, timeout.value + poll)
            && deadline.value + poll <= start + Repeated(escalations + 1, timeout.value + poll)
            && deadline.value >= start + Repeated(escalations + 1, timeout.value))
    }

    lemma StartsOnTime(start: real)
      requires poll > 0.0 && (timeout.Some? ==> timeout.value >= 0.0)
      ensures OnTime(start, start, if timeout.Some? then Some(start + timeout.value) else None, 0, 0)
    {}

    lemma SleepsOnTime(start: real, now: real, deadline: Option<real>, slept: nat, escalations: nat)
      requires OnTime(start, now, deadline, slept, escalations) && (deadline.Some? ==> now < deadline.value)
      ensures OnTime(start, now + poll, deadline, slept + 1, escalations)
    {}

    lemma EscalatesOnTime(start: real, now: real, deadline: Option<real>, slept: nat, escalations: nat)
      requires OnTime(start, now, deadline, slept, escalations) && deadline.Some? && now >= deadline.value
      requires onTimeout == Escalate && escalations < MAX_ESCALATIONS
      ensures OnTime(start, now, Some(now + timeout.value), slept, escalations + 1)
    {}

    /**
     * The clock moved by the sleeps, the last of which may be missing; with a timeout the wait is
     * bounded, and it expires only once the time, and every escalation allowed, is used up.
     */
    predicate Timed(start: real, now: real, sleeps: nat, escalations: nat, looks: nat, expired: bool) {
      && escalations <= MAX_ESCALATIONS && (escalations > 0 ==> onTimeout == Escalate && timeout.Some?)
      && 0 <= looks - escalations - 1 <= sleeps && now == start + ((looks - escalations - 1) as real) * poll
      && (timeout.Some? ==> now - start <= ((MAX_ESCALATIONS + 1) as real) * (timeout.value + poll))
      && (expired ==>
            && timeout.Some? && now - start >= ((escalations + 1) as real) * timeout.value
            && (onTimeout == Escalate ==> escalations == MAX_ESCALATIONS))
    }

    lemma EndsOnTime(start: real, now: real, deadline: Option<real>, slept: nat, escalations: nat, sleeps: nat)
      requires OnTime(start, now, deadline, slept, escalations) && slept <= sleeps
      ensures Timed(start, now, sleeps, escalations, slept + escalations + 1, false)
      ensures deadline.Some? && now >= deadline.value && (onTimeout == Escalate ==> escalations == MAX_ESCALATIONS) ==>
                Timed(start, now, sleeps, escalations, slept + escalations + 1, true)
    {
      RepeatedIsProduct(slept, poll);
      if timeout.Some? {
        RepeatedGrows(escalations + 1, MAX_ESCALATIONS + 1, timeout.value + poll);
        RepeatedIsProduct(MAX_ESCALATIONS + 1, timeout.value + poll);
        RepeatedIsProduct(escalations + 1, timeout.value);
      }
    }

    /** Look at the table again, after whatever others did to it. */
    method Look(store: MessageStore, actions: seq<Action>)
      requires WellFormed(store.messages)
      modifies store
      ensures WellFormed(store.messages) && store.messages == Run(old(store.messages), actions)
    {
      RunKeepsWellFormed(store.messages, actions);
      store.Interfere(actions);
    }

    /**
     * The polling loop. It ends at the first look that finds an answer or a cancellation, with what
     * it finds; otherwise past the deadline, or cut off after all sleeps.
     */
    method Wait(store: MessageStore, id: string, others: nat -> seq<Action>, start: real, sleeps: nat)
      returns (r: Option<HumanInputResult>, now: real, escalations: nat, looks: nat, expired: bool)
      requires WellFormed(store.messages) && poll > 0.0 && (timeout.Some? ==> timeout.value >= 0.0)
      modifies store
      ensures WellFormed(store.messages)
      ensures looks > 0 && store.messages == Seen(old(store.messages), others, looks)
      ensures Undecided(old(store.messages), others, id, looks)
      ensures r == Found(store.messages, id)
      ensures Timed(start, now, sleeps, escalations, looks, expired)
      ensures expired ==> r.None?
      ensures r.None? && !expired ==> looks == sleeps + escalations + 1
    {
      now, escalations, looks, expired := start, 0, 0, false;
      var slept := 0;
      var deadline := if timeout.Some? then Some(now + timeout.value) else None;
      ghost var first := store.messages;
      StartsOnTime(start);
      while true
        invariant WellFormed(store.messages)
        invariant slept <= sleeps && OnTime(start, now, deadline, slept, escalations)
        invariant looks == slept + escalations && store.messages == Seen(first, others, looks)
        invariant Undecided(first, others, id, looks + 1)
        decreases sleeps - slept, MAX_ESCALATIONS - escalations
      {
        EndsOnTime(start, now, deadline, slept, escalations, sleeps);
        Look(store, others(looks));
        looks := looks + 1;
        if id in store.messages && store.messages[id].status == Answered {
          r := Some(HumanInputResult(id, ByAnswer, Some(store.messages[id].answered.value.answer), true, None));
          break;
        }
        if id in store.messages && store.messages[id].status == CancelledQuestion {
          r := Some(HumanInputResult(id, ByAnswer, None, false, Some(InputCancelled)));
          break;
        }
        OneMoreLook(first, others, id, looks);
        if deadline.Some? && now >= deadline.value {
          if onTimeout == Escalate && escalations < MAX_ESCALATIONS {
            EscalatesOnTime(start, now, deadline, slept, escalations);
            escalations := escalations + 1;
            deadline := Some(now + timeout.value);
            continue;
          }
          r, expired := None, true;
          break;
        }
        if slept == sleeps { r := None; break; }
        SleepsOnTime(start, now, deadline, slept, escalations);
        now, slept := now + poll, slept + 1;
      }
    }

    /** After the deadline: a last look, then the timeout policy. */
    method Finish(store: MessageStore, id: string, others: nat -> seq<Action>, looks: nat, now: real)
      returns (r: Option<HumanInputResult>)
      requires WellFormed(store.messages)
      modifies store
      ensures WellFormed(store.messages) && r.Some?
      ensures forall t :: Seen(t, others, looks) == old(store.messages) ==>
                PolicySpeaks(t, id, others, r.value, looks, now, store.messages)
    {
      Look(store, others(looks));
      if id in store.messages && store.messages[id].status == Answered {
        return Some(HumanInputResult(id, ByAnswer, Some(store.messages[id].answered.value.answer), true, None));
      }
      if onTimeout == Escalate {
        return Some(HumanInputResult(id, ByAnswer, None, false, Some(EscalationsExhausted)));
      }
      Look(store, others(looks + 1));
      if onTimeout == DefaultAnswer && defaultAnswer.Some? {
        QuestionStep(store.messages, AnswerQuestion(id, Answer(defaultAnswer.value, "auto")), id);
        var answered := store.AnswerPending(id, Answer(defaultAnswer.value, "auto"));
        if answered == Err(NotFound) {
          return Some(HumanInputResult(id, ByAnswer, None, false, Some(QuestionLost)));
        }
        return Some(HumanInputResult(id, Auto, defaultAnswer, true, None));
      }
      QuestionStep(store.messages, SweepExpired(now), id);
      var _ := store.SweepExpiredQuestions(now);
      r := Some(HumanInputResult(id, ByAnswer, None, false, Some(TimedOut)));
    }
  }
}
