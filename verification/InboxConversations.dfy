/** Which conversations keep the inbox's count right: a round's messages are the end of the
    conversation it is recorded with, and the count goes wrong exactly when the conversation
    before them repeats the inbox. */
module InboxConversations {
  import opened Conversation
  import opened Inbox
  import opened InboxRecovery
  import opened InboxProtocol
  import opened InboxTheorems

  /** The conversation ends with the messages that rounds took and nobody recorded yet. */
  predicate EndsWithTaken(m: Memory, messages: seq<Message>)
  {
    && 0 <= Taken(m) <= |messages|
    && messages[|messages| - Taken(m)..] == AsUser(m.pending[..Taken(m)])
  }

  function Before(m: Memory, messages: seq<Message>): seq<Message>
    requires EndsWithTaken(m, messages)
  {
    messages[..|messages| - Taken(m)]
  }

  ghost predicate RepeatsInbox(m: Memory, messages: seq<Message>)
    requires EndsWithTaken(m, messages)
  {
    exists longer: nat :: Repeats(Before(m, messages), m.pending, Taken(m), longer)
  }

  /** Every recorded conversation ended with what rounds had taken, as long as the queue and the
      pending messages agreed. */
  ghost predicate Conversations(run: Run)
  {
    run.Then? ==>
      && Conversations(run.before)
      && (run.step.Write? && run.before.s.exact && run.before.s.memory.Some? ==>
            EndsWithTaken(run.before.s.memory.value, run.step.messages))
  }

  ghost predicate NoRepeat(run: Run)
  {
    run.Then? ==>
      && NoRepeat(run.before)
      && (run.step.Write? && run.before.s.memory.Some? ==>
            var m := run.before.s.memory.value;
            EndsWithTaken(m, run.step.messages) ==> !RepeatsInbox(m, run.step.messages))
  }

  /** One recorded conversation is counted right exactly when it does not repeat the inbox. */
  lemma WriteIsExactIffNoRepeat(m: Memory, messages: seq<Message>)
    requires EndsWithTaken(m, messages)
    ensures DeliveredCount(messages, m.pending, |m.pending|) <= Taken(m) <==> !RepeatsInbox(m, messages)
  {
    var prior := Before(m, messages);
    assert messages == prior + AsUser(m.pending[..Taken(m)]);
    CountIsExactUnlessRepeated(prior, m.pending, Taken(m));
    assert Fits(messages, m.pending, Taken(m));
  }

  lemma StepIsExactIffNoRepeat(s: State, step: Step)
    requires s.exact && Enabled(s, step)
    requires step.Write? ==> EndsWithTaken(s.memory.value, step.messages)
    ensures Apply(s, step).exact <==> (step.Write? ==> !RepeatsInbox(s.memory.value, step.messages))
  {
    if step.Write? { WriteIsExactIffNoRepeat(s.memory.value, step.messages); }
  }

  /** All counts of a history are right if and only if no recorded conversation repeated the inbox. */
  lemma {:induction false} ExactIffNoRepeat(run: Run)
    requires Valid(run) && Conversations(run)
    ensures run.s.exact <==> NoRepeat(run)
  {
    if run.Then? {
      ExactIffNoRepeat(run.before);
      if run.before.s.exact { StepIsExactIffNoRepeat(run.before.s, run.step); }
    }
  }

  /** Every recorded conversation is something that does not end in a user message, or nothing,
      and then what rounds had taken. */
  ghost predicate Answered(run: Run)
  {
    run.Then? ==>
      && Answered(run.before)
      && (run.step.Write? && run.before.s.memory.Some? ==>
            && EndsWithTaken(run.before.s.memory.value, run.step.messages)
            && var prior := Before(run.before.s.memory.value, run.step.messages);
               prior == [] || prior[|prior| - 1].role != User)
  }

  lemma AnsweredDoesNotRepeat(m: Memory, messages: seq<Message>)
    requires EndsWithTaken(m, messages)
    requires var prior := Before(m, messages); prior == [] || prior[|prior| - 1].role != User
    ensures !RepeatsInbox(m, messages)
  {
    var prior := Before(m, messages);
    assert messages == prior + AsUser(m.pending[..Taken(m)]);
    CountIsExactAfterAnswer(prior, m.pending, Taken(m));
    WriteIsExactIffNoRepeat(m, messages);
  }

  lemma {:induction false} AnsweredHasNoRepeat(run: Run)
    requires Valid(run) && Answered(run)
    ensures Conversations(run) && NoRepeat(run)
  {
    if run.Then? {
      AnsweredHasNoRepeat(run.before);
      if run.step.Write? && run.before.s.memory.Some? {
        AnsweredDoesNotRepeat(run.before.s.memory.value, run.step.messages);
      }
    }
  }

  /** In a history whose recorded conversations never repeat the inbox, every accepted message
      is accounted for and `close` never reaches outside the pending messages. */
  lemma ConversationsAccountForEveryMessage(run: Run, k: nat)
    requires Valid(run) && Conversations(run) && NoRepeat(run)
    ensures Accounted(run.s, k)
    ensures run.s.memory.Some? ==> 0 <= Taken(run.s.memory.value) && !run.s.memory.value.mode.Broken?
  {
    ExactIffNoRepeat(run);
    InvHoldsInEveryRun(run);
    EveryMessageIsAccountedFor(run, k);
  }

  /** The log of such a history can always be read back, so its restores never fail on it. */
  lemma ReadableWithoutRepeat(run: Run)
    requires Valid(run) && Conversations(run) && NoRepeat(run)
    ensures Recovered(run.s.events).Some?
  {
    ExactIffNoRepeat(run);
    InvHoldsInEveryRun(run);
  }

  /** In particular when each block follows a message that is not the user's. */
  lemma AnsweredRunsAccountForEveryMessage(run: Run, k: nat)
    requires Valid(run) && Answered(run)
    ensures run.s.exact && Accounted(run.s, k)
    ensures run.s.memory.Some? ==> 0 <= Taken(run.s.memory.value) && !run.s.memory.value.mode.Broken?
  {
    AnsweredHasNoRepeat(run);
    ExactIffNoRepeat(run);
    ConversationsAccountForEveryMessage(run, k);
  }
}
