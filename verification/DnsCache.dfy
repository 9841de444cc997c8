// The DNS answer cache shared by concurrent queries.
module DnsCache {
  import opened Bytes

  const FRESH_SECONDS: nat := 60

  datatype Entry = Entry(responseBody: seq<byte>, cachedAt: nat)

  // An answer that was saved: the question it belongs to, the response without its id, the time.
  datatype Saved = Saved(question: seq<byte>, body: seq<byte>, time: nat)

  // The newest saved answer to a question.
  function Latest(history: seq<Saved>, question: seq<byte>): Option<Saved>
  {
    if history == [] then None
    else if history[|history| - 1].question == question then Some(history[|history| - 1])
    else Latest(history[..|history| - 1], question)
  }

  ghost predicate Agrees(entries: map<seq<byte>, Entry>, history: seq<Saved>)
  {
    && (forall q <- entries :: Latest(history, q).Some?)
    && (forall q | Latest(history, q).Some? ::
          var s := Latest(history, q).value;
          q in entries && s.question == q && entries[q] == Entry(s.body, s.time))
  }

  // What a query is answered from the cache, given everything saved so far.
  function Answer(history: seq<Saved>, payload: seq<byte>, now: nat): Option<seq<byte>>
  {
    if |payload| < 2 || Latest(history, payload[2..]).None? then None
    else
      var s := Latest(history, payload[2..]).value;
      if now - s.time < FRESH_SECONDS then Some(payload[..2] + s.body) else None
  }

  function AfterSave(history: seq<Saved>, payload: seq<byte>, upstream: Option<seq<byte>>, now: nat): seq<Saved>
  {
    if upstream.Some? && |payload| >= 2 && |upstream.value| >= 2 then
      history + [Saved(payload[2..], upstream.value[2..], now)]
    else history
  }

  lemma {:induction false} LatestAfter(history: seq<Saved>, s: Saved, q: seq<byte>)
    ensures Latest(history + [s], q) == if s.question == q then Some(s) else Latest(history, q)
  {
    assert (history + [s])[..|history|] == history;
  }

  lemma SaveAgrees(entries: map<seq<byte>, Entry>, history: seq<Saved>, s: Saved)
    requires Agrees(entries, history)
    ensures Agrees(entries[s.question := Entry(s.body, s.time)], history + [s])
  {
    forall q
      ensures Latest(history + [s], q) == if s.question == q then Some(s) else Latest(history, q)
    {
      LatestAfter(history, s, q);
    }
  }

  // The concurrent map and the clock. A query is two atomic steps with the exchange upstream between
  // them, during which other queries look up and save.
  class Cache {
    var entries: map<seq<byte>, Entry>
    var clock: nat
    ghost var history: seq<Saved>

    ghost predicate Valid()
      reads this
    {
      Agrees(entries, history) && forall s <- history :: s.time <= clock
    }

    constructor ()
      ensures Valid() && history == [] && clock == 0
    {
      entries, clock, history := map[], 0, [];
    }

    method Tick(seconds: nat)
      requires Valid()
      modifies this
      ensures Valid() && history == old(history) && clock == old(clock) + seconds
    {
      clock := clock + seconds;
    }

    // The first half of `forward_dns_query`.
    method Lookup(payload: seq<byte>) returns (response: Option<seq<byte>>)
      requires Valid()
      ensures response == Answer(history, payload, clock)
    {
      response := None;
      if |payload| >= 2 {
        var txId := [payload[0], payload[1]];
        var question := payload[2..];
        if question in entries {
          var entry := entries[question];
          if clock - entry.cachedAt < FRESH_SECONDS {
            var resp := [txId[0], txId[1]];
            resp := resp + entry.responseBody;
            assert resp == payload[..2] + entry.responseBody;
            response := Some(resp);
          }
        }
      }
    }

    // The second half, once upstream has answered or failed.
    method Complete(payload: seq<byte>, upstream: Option<seq<byte>>) returns (response: Option<seq<byte>>)
      requires Valid()
      modifies this
      ensures Valid() && response == upstream && clock == old(clock)
      ensures history == AfterSave(old(history), payload, upstream, clock)
    {
      response := upstream;
      if response.Some? && |payload| >= 2 && |response.value| >= 2 {
        var question := payload[2..];
        SaveAgrees(entries, history, Saved(question, response.value[2..], clock));
        entries := entries[question := Entry(response.value[2..], clock)];
        history := history + [Saved(question, response.value[2..], clock)];
      }
    }
  }

  // ---- Runs: any interleaving of queries against one cache ----

  datatype Event =
    | Tick(seconds: nat)
    | Ask(payload: seq<byte>)
    | Upstream(payload: seq<byte>, answer: Option<seq<byte>>)

  datatype Trace = Trace(history: seq<Saved>, clock: nat)

  function Run(es: seq<Event>): Trace
  {
    if es == [] then Trace([], 0)
    else
      var t := Run(es[..|es| - 1]);
      match es[|es| - 1]
      case Tick(seconds) => t.(clock := t.clock + seconds)
      case Ask(_) => t
      case Upstream(payload, answer) => t.(history := AfterSave(t.history, payload, answer, t.clock))
  }

  // An answer worth saving to the question of `payload`.
  predicate Answers(e: Event, payload: seq<byte>)
    requires |payload| >= 2
  {
    e.Upstream? && e.answer.Some? && |e.payload| >= 2 && |e.answer.value| >= 2 && e.payload[2..] == payload[2..]
  }

  // Event `i` is the newest answer to the question of `payload` in the run.
  predicate NewestAnswer(es: seq<Event>, i: nat, payload: seq<byte>)
    requires |payload| >= 2
  {
    i < |es| && Answers(es[i], payload) && forall j :: i < j < |es| ==> !Answers(es[j], payload)
  }

  lemma NewestOfLonger(es: seq<Event>, i: nat, payload: seq<byte>, e: Event)
    requires |payload| >= 2 && NewestAnswer(es, i, payload) && !Answers(e, payload)
    ensures NewestAnswer(es + [e], i, payload)
  {
  }

  lemma HistoryAfter(es: seq<Event>, e: Event, payload: seq<byte>)
    requires |payload| >= 2
    ensures var before := Run(es);
      Latest(Run(es + [e]).history, payload[2..]) ==
        if Answers(e, payload) then Some(Saved(payload[2..], e.answer.value[2..], before.clock))
        else Latest(before.history, payload[2..])
  {
    assert (es + [e])[..|es|] == es;
    if e.Upstream? && e.answer.Some? && |e.payload| >= 2 && |e.answer.value| >= 2 {
      LatestAfter(Run(es).history, Saved(e.payload[2..], e.answer.value[2..], Run(es).clock), payload[2..]);
    }
  }

  // The newest saved answer is the newest answer of the run, saved at the time it came.
  lemma {:induction false} LatestIsNewest(es: seq<Event>, payload: seq<byte>) returns (i: nat)
    requires |payload| >= 2
    ensures match Latest(Run(es).history, payload[2..])
      case None => forall j :: 0 <= j < |es| ==> !Answers(es[j], payload)
      case Some(s) =>
        NewestAnswer(es, i, payload) && s == Saved(payload[2..], es[i].answer.value[2..], Run(es[..i]).clock)
  {
    i := 0;
    if es != [] {
      var before, e := es[..|es| - 1], es[|es| - 1];
      assert es == before + [e];
      i := LatestIsNewest(before, payload);
      HistoryAfter(before, e, payload);
      if Answers(e, payload) {
        i := |before|;
      } else if Latest(Run(before).history, payload[2..]).Some? {
        NewestOfLonger(before, i, payload, e);
        assert before[..i] == es[..i];
      } else {
        assert forall j :: 0 <= j < |before| ==> es[j] == before[j];
      }
    }
  }

  lemma NewestIsUnique(es: seq<Event>, i: nat, j: nat, payload: seq<byte>)
    requires |payload| >= 2 && NewestAnswer(es, i, payload) && NewestAnswer(es, j, payload)
    ensures i == j
  {
  }

  // Cache and upstream agree: a query is answered from the cache exactly when the newest answer
  // upstream gave to the byte-identical question is under a minute old, and then with that answer's
  // body behind the query's own transaction id. Questions never mix.
  lemma HitsExactly(es: seq<Event>, payload: seq<byte>)
    requires |payload| >= 2
    ensures var t := Run(es);
      var answer := Answer(t.history, payload, t.clock);
      && (forall i: nat :: NewestAnswer(es, i, payload) ==>
            answer == if t.clock - Run(es[..i]).clock < FRESH_SECONDS
                      then Some(payload[..2] + es[i].answer.value[2..]) else None)
      && ((forall i: nat :: !NewestAnswer(es, i, payload)) ==> answer == None)
  {
    var n := LatestIsNewest(es, payload);
    forall i: nat | NewestAnswer(es, i, payload)
      ensures Latest(Run(es).history, payload[2..]).Some? && i == n
    {
      assert Answers(es[i], payload);
      NewestIsUnique(es, i, n, payload);
    }
  }
}
