/** A running child's inbox: what it holds in memory, what it records, and how a round's
    conversation is matched against the accepted messages. */
module Inbox {
  import opened Conversation
  import opened Options

  type AcceptanceId = nat

  datatype Message = Message(role: Role, text: string)

  /** The run's event log, as far as the inbox reads it. */
  datatype Event =
    | Queued(text: string, id: Option<AcceptanceId>, at: nat)
    | Delivered(text: string, id: Option<AcceptanceId>)
    | Undelivered(text: string, id: Option<AcceptanceId>)
    | Other

  /** One row of the child's transcript. */
  datatype Row = Row(id: nat, role: Role, content: string, at: nat)

  // ---- how many pending messages close the conversation ----

  predicate EndsWithUserTexts(messages: seq<Message>, texts: seq<string>)
    requires |texts| <= |messages|
  {
    forall i | 0 <= i < |texts| :: messages[|messages| - |texts| + i] == Message(User, texts[i])
  }

  predicate Fits(messages: seq<Message>, pending: seq<string>, count: nat)
  {
    count <= |pending| && count <= |messages| && EndsWithUserTexts(messages, pending[..count])
  }

  /** The longest prefix of `pending`, up to `bound` texts, that closes the conversation. */
  function DeliveredCount(messages: seq<Message>, pending: seq<string>, bound: nat): (count: nat)
    requires bound <= |pending|
    ensures count <= bound && Fits(messages, pending, count)
    ensures forall longer: nat | count < longer <= bound :: !Fits(messages, pending, longer)
  {
    if bound == 0 || Fits(messages, pending, bound) then bound else DeliveredCount(messages, pending, bound - 1)
  }

  method DeliveredInboxCount(messages: seq<Message>, pending: seq<string>) returns (count: nat)
    ensures count == DeliveredCount(messages, pending, |pending|)
  {
    count := |pending|;
    while count > 0
      invariant count <= |pending|
      invariant DeliveredCount(messages, pending, count) == DeliveredCount(messages, pending, |pending|)
    {
      if count <= |messages| && EndsWithUserTexts(messages, pending[..count]) {
        return;
      }
      count := count - 1;
    }
  }

  function AsUser(texts: seq<string>): seq<Message>
  {
    seq(|texts|, i requires 0 <= i < |texts| => Message(User, texts[i]))
  }

  /** The conversation `prior` already ended like the front of the inbox, so that the block
      of `taken` messages reads as the end of a longer block. */
  ghost predicate Repeats(prior: seq<Message>, pending: seq<string>, taken: nat, longer: nat)
    requires taken <= |pending|
  {
    && taken < longer <= |pending| && longer - taken <= |prior|
    && EndsWithUserTexts(prior, pending[..longer - taken])
    && pending[longer - taken..longer] == pending[..taken]
  }

  /** A longer match is the inbox's front in `prior`, then the taken block. */
  lemma LongerBlock(prior: seq<Message>, pending: seq<string>, taken: nat, longer: nat)
    requires taken < longer <= |pending|
    ensures Fits(prior + AsUser(pending[..taken]), pending, longer) <==> Repeats(prior, pending, taken, longer)
  {
    var messages, extra := prior + AsUser(pending[..taken]), longer - taken;
    if extra <= |prior| {
      var start := |prior| - extra;
      assert pending[..longer] == pending[..extra] + pending[extra..longer];
      assert EndsWithUserTexts(messages, pending[..longer]) <==> messages[start..] == AsUser(pending[..longer]);
      assert EndsWithUserTexts(prior, pending[..extra]) <==> prior[start..] == AsUser(pending[..extra]);
      assert messages[start..] == prior[start..] + AsUser(pending[..taken]);
      assert AsUser(pending[..longer]) == AsUser(pending[..extra]) + AsUser(pending[extra..longer]);
      AsUserInjective(pending[..taken], pending[extra..longer]);
      SplitEqual(prior[start..], AsUser(pending[..taken]), AsUser(pending[..extra]), AsUser(pending[extra..longer]));
    }
  }

  lemma AsUserInjective(a: seq<string>, b: seq<string>)
    ensures AsUser(a) == AsUser(b) <==> a == b
  {
    if AsUser(a) == AsUser(b) {
      assert |a| == |AsUser(a)| == |b|;
      assert forall i | 0 <= i < |a| :: AsUser(a)[i].text == a[i] && AsUser(b)[i].text == b[i];
    }
  }

  lemma SplitEqual<T>(a: seq<T>, b: seq<T>, c: seq<T>, d: seq<T>)
    requires |a| == |c|
    ensures a + b == c + d <==> a == c && b == d
  {
    assert (a + b)[..|a|] == a && (a + b)[|a|..] == b;
    assert (c + d)[..|c|] == c && (c + d)[|c|..] == d;
  }

  /** The count is the number the round took, unless the conversation repeats the inbox. */
  lemma CountIsExactUnlessRepeated(prior: seq<Message>, pending: seq<string>, taken: nat)
    requires taken <= |pending|
    ensures DeliveredCount(prior + AsUser(pending[..taken]), pending, |pending|) == taken
       <==> !exists longer: nat :: Repeats(prior, pending, taken, longer)
  {
    var messages := prior + AsUser(pending[..taken]);
    assert Fits(messages, pending, taken);
    forall longer: nat | taken < longer <= |pending|
      ensures Fits(messages, pending, longer) <==> Repeats(prior, pending, taken, longer)
    {
      LongerBlock(prior, pending, taken, longer);
    }
  }

  /** In particular it is exact when the block follows a message that is not the user's. */
  lemma CountIsExactAfterAnswer(prior: seq<Message>, pending: seq<string>, taken: nat)
    requires taken <= |pending| && (prior == [] || prior[|prior| - 1].role != User)
    ensures DeliveredCount(prior + AsUser(pending[..taken]), pending, |pending|) == taken
  {
    CountIsExactUnlessRepeated(prior, pending, taken);
    forall longer: nat ensures !Repeats(prior, pending, taken, longer) {
      if taken < longer <= |pending| && longer - taken <= |prior| {
        var texts := pending[..longer - taken];
        assert prior[|prior| - |texts| + (|texts| - 1)] != Message(User, texts[|texts| - 1]);
      }
    }
  }

  /** Accepting the same text while a round that follows that very text is being recorded
      counts one message too many. */
  lemma RepeatedTextCountsTwice(text: string)
    ensures DeliveredCount([Message(User, text)] + AsUser([text, text][..1]), [text, text], 2) == 2
  {
    assert EndsWithUserTexts([Message(User, text)] + AsUser([text, text][..1]), [text, text][..2]);
  }
}
