/** The worker thread of the asynchronous logger: it drains the queue in ticket order and flushes before it leaves. */
module LogWorkers {
  import opened Finite
  import opened Rings
  import opened Streams

  datatype AsyncMsg = Log(level: nat, text: string) | FlushRequest | Terminate

  /** What a sink is asked to do. */
  datatype Call = ShouldLog(sink: nat, level: nat) | Write(sink: nat, text: string) | Flush(sink: nat)

  /** One turn of the worker: what the queue answered, and whether the flush interval has passed. */
  datatype Turn = Turn(answer: Option<AsyncMsg>, expired: bool)

  /** The calls a message makes on the sinks from number `from` on; a sink takes messages of its level or above. */
  function Logged(level: nat, text: string, levels: seq<nat>, from: nat): seq<Call>
    requires from <= |levels|
    decreases |levels| - from
  {
    if from == |levels| then []
    else [ShouldLog(from, level)] + (if level >= levels[from] then [Write(from, text)] else [])
         + Logged(level, text, levels, from + 1)
  }

  function Flushes(from: nat, count: nat): (flushes: seq<Call>)
    requires from <= count
    decreases count - from
    ensures |flushes| == count - from && forall i :: 0 <= i < |flushes| ==> flushes[i] == Flush(from + i)
  {
    if from == count then [] else [Flush(from)] + Flushes(from + 1, count)
  }

  /** The calls for one sink: it is asked, and writes directly behind that if the message is of its level or above. */
  lemma HeadCalls(level: nat, text: string, sinkLevel: nat, from: nat, head: seq<Call>, x: Call)
    requires head == [ShouldLog(from, level)] + (if level >= sinkLevel then [Write(from, text)] else [])
    ensures Occurs(head, x)
         == (if x == ShouldLog(from, level) then 1 else 0)
            + (if level >= sinkLevel && x == Write(from, text) then 1 else 0)
  {
    var asked := [ShouldLog(from, level)];
    OccursPush([], ShouldLog(from, level), x);
    assert [] + asked == asked;
    if level >= sinkLevel {
      OccursPush(asked, Write(from, text), x);
    } else {
      assert head == asked;
    }
  }

  /** Each sink is asked once, and writes once if and only if the message is of its level or above. */
  lemma {:induction false} LoggedCounts(level: nat, text: string, levels: seq<nat>, from: nat, i: nat)
    requires from <= |levels|
    decreases |levels| - from
    ensures Occurs(Logged(level, text, levels, from), ShouldLog(i, level)) == if from <= i < |levels| then 1 else 0
    ensures Occurs(Logged(level, text, levels, from), Write(i, text))
         == if from <= i < |levels| && level >= levels[i] then 1 else 0
  {
    if from < |levels| {
      LoggedCounts(level, text, levels, from + 1, i);
      var rest := Logged(level, text, levels, from + 1);
      var head := [ShouldLog(from, level)] + (if level >= levels[from] then [Write(from, text)] else []);
      OccursConcat(head, rest, ShouldLog(i, level));
      OccursConcat(head, rest, Write(i, text));
      HeadCalls(level, text, levels[from], from, head, ShouldLog(i, level));
      HeadCalls(level, text, levels[from], from, head, Write(i, text));
    }
  }

  /** The sinks come in order, each writes directly behind its question, and there is nothing else. */
  ghost predicate Shaped(added: seq<Call>, level: nat, text: string, from: nat) {
    && (forall k :: 0 <= k < |added| ==>
         from <= added[k].sink
         && (added[k] == ShouldLog(added[k].sink, level) || added[k] == Write(added[k].sink, text)))
    && (added != [] ==> added[0].ShouldLog?)
    && (forall j, k :: 0 <= j < k < |added| && k == j + 1 && added[k].Write? ==>
         added[j] == ShouldLog(added[k].sink, level))
    && (forall j, k :: 0 <= j < k < |added| ==> added[j].sink <= added[k].sink)
  }

  lemma ShapeJoin(head: seq<Call>, rest: seq<Call>, level: nat, text: string, from: nat)
    requires head == [ShouldLog(from, level)] || head == [ShouldLog(from, level), Write(from, text)]
    requires Shaped(rest, level, text, from + 1)
    ensures Shaped(head + rest, level, text, from)
  {
    var added, n := head + rest, |head|;
    assert forall k :: 0 <= k < n ==> added[k] == head[k];
    assert forall k :: n <= k < |added| ==> added[k] == rest[k - n];
  }

  lemma {:induction false} LoggedShape(level: nat, text: string, levels: seq<nat>, from: nat)
    requires from <= |levels|
    decreases |levels| - from
    ensures Shaped(Logged(level, text, levels, from), level, text, from)
  {
    if from < |levels| {
      LoggedShape(level, text, levels, from + 1);
      var head := [ShouldLog(from, level)] + (if level >= levels[from] then [Write(from, text)] else []);
      ShapeJoin(head, Logged(level, text, levels, from + 1), level, text, from);
    }
  }

  lemma ShapeBehind(before: seq<Call>, calls: seq<Call>, level: nat, text: string, levels: seq<nat>)
    requires calls == before + Logged(level, text, levels, 0)
    ensures calls[|before|..] == Logged(level, text, levels, 0)
    ensures forall k :: |before| <= k < |calls| ==>
              calls[k] == ShouldLog(calls[k].sink, level) || calls[k] == Write(calls[k].sink, text)
    ensures |before| < |calls| ==> calls[|before|].ShouldLog?
    ensures forall j, k :: |before| <= j < k < |calls| && k == j + 1 && calls[k].Write? ==>
              calls[j] == ShouldLog(calls[k].sink, level)
    ensures forall j, k :: |before| <= j < k < |calls| ==> calls[j].sink <= calls[k].sink
  {
    LoggedShape(level, text, levels, 0);
    var added := Logged(level, text, levels, 0);
    assert forall k :: |before| <= k < |calls| ==> calls[k] == added[k - |before|];
  }

  /** What a sink has written, in order. */
  function TextsTo(calls: seq<Call>, sink: nat): seq<string> {
    if calls == [] then []
    else (if calls[0].Write? && calls[0].sink == sink then [calls[0].text] else []) + TextsTo(calls[1..], sink)
  }

  /** What a sink of the given level is to write of the messages. */
  function TextsFor(ms: seq<AsyncMsg>, level: nat): seq<string> {
    if ms == [] then []
    else (if ms[0].Log? && ms[0].level >= level then [ms[0].text] else []) + TextsFor(ms[1..], level)
  }

  lemma {:induction false} TextsToConcat(a: seq<Call>, b: seq<Call>, sink: nat)
    ensures TextsTo(a + b, sink) == TextsTo(a, sink) + TextsTo(b, sink)
  {
    if a == [] {
      assert a + b == b;
    } else {
      ConcatTail(a, b);
      TextsToConcat(a[1..], b, sink);
      Associative(if a[0].Write? && a[0].sink == sink then [a[0].text] else [], TextsTo(a[1..], sink),
        TextsTo(b, sink));
    }
  }

  lemma {:induction false} TextsForPrefix(a: seq<AsyncMsg>, b: seq<AsyncMsg>, level: nat)
    requires a <= b
    ensures TextsFor(a, level) <= TextsFor(b, level)
  {
    if a != [] {
      assert a[1..] <= b[1..];
      TextsForPrefix(a[1..], b[1..], level);
    }
  }

  lemma {:induction false} LoggedTexts(level: nat, text: string, levels: seq<nat>, from: nat, sink: nat)
    requires from <= |levels| && sink < |levels|
    decreases |levels| - from
    ensures TextsTo(Logged(level, text, levels, from), sink)
         == if from <= sink && level >= levels[sink] then [text] else []
  {
    if from < |levels| {
      LoggedTexts(level, text, levels, from + 1, sink);
      var head := [ShouldLog(from, level)] + (if level >= levels[from] then [Write(from, text)] else []);
      TextsToConcat(head, Logged(level, text, levels, from + 1), sink);
      assert head[1..] == (if level >= levels[from] then [Write(from, text)] else []);
      assert |head| == 2 ==> head[1..][1..] == [];
    }
  }

  /** Every sink writes exactly the texts of the messages of its level or above, in order. */
  lemma {:induction false} EverySinkWrites(ms: seq<AsyncMsg>, levels: seq<nat>, sink: nat)
    requires sink < |levels|
    ensures TextsTo(AllCalls(ms, levels), sink) == TextsFor(ms, levels[sink])
  {
    if ms != [] {
      EverySinkWrites(ms[1..], levels, sink);
      TextsToConcat(CallsOf(ms[0], levels), AllCalls(ms[1..], levels), sink);
      if ms[0].Log? { LoggedTexts(ms[0].level, ms[0].text, levels, 0, sink); }
    }
  }

  lemma {:induction false} LoggingTexts(calls: seq<Call>, sink: nat)
    ensures TextsTo(Logging(calls), sink) == TextsTo(calls, sink)
  {
    if calls != [] {
      LoggingTexts(calls[1..], sink);
      TextsToConcat(if calls[0].Flush? then [] else [calls[0]], Logging(calls[1..]), sink);
      assert [calls[0]][1..] == [];
    }
  }

  function CallsOf(m: AsyncMsg, levels: seq<nat>): seq<Call> {
    match m
    case Log(level, text) => Logged(level, text, levels, 0)
    case FlushRequest => []
    case Terminate => []
  }

  function AllCalls(ms: seq<AsyncMsg>, levels: seq<nat>): seq<Call> {
    if ms == [] then [] else CallsOf(ms[0], levels) + AllCalls(ms[1..], levels)
  }

  lemma {:induction false} AllCallsPush(ms: seq<AsyncMsg>, m: AsyncMsg, levels: seq<nat>)
    ensures AllCalls(ms + [m], levels) == AllCalls(ms, levels) + CallsOf(m, levels)
  {
    hide CallsOf;
    if ms == [] {
      assert [m][1..] == [];
    } else {
      ConcatTail(ms, [m]);
      AllCallsPush(ms[1..], m, levels);
      Associative(CallsOf(ms[0], levels), AllCalls(ms[1..], levels), CallsOf(m, levels));
    }
  }

  lemma {:induction false} AllCallsConcat(a: seq<AsyncMsg>, b: seq<AsyncMsg>, levels: seq<nat>)
    ensures AllCalls(a + b, levels) == AllCalls(a, levels) + AllCalls(b, levels)
  {
    hide CallsOf;
    if a == [] {
      assert a + b == b;
    } else {
      ConcatTail(a, b);
      AllCallsConcat(a[1..], b, levels);
      Associative(CallsOf(a[0], levels), AllCalls(a[1..], levels), AllCalls(b, levels));
    }
  }

  /** No message is lost: if the worker has taken a part of the queue in ticket order and a terminate message is
      among it, then all messages whose tickets precede the first terminate message were logged first, in order. */
  lemma DrainedBeforeTerminate(queue: seq<AsyncMsg>, taken: seq<AsyncMsg>, p: nat, levels: seq<nat>)
    requires taken <= queue && Terminate in taken
    requires p < |queue| && queue[p] == Terminate && forall i :: 0 <= i < p ==> queue[i] != Terminate
    ensures p < |taken| && AllCalls(queue[..p], levels) <= AllCalls(taken, levels)
  {
    var i :| 0 <= i < |taken| && taken[i] == Terminate;
    assert queue[i] == Terminate;
    assert taken == queue[..p] + taken[p..];
    AllCallsConcat(queue[..p], taken[p..], levels);
  }

  /** The calls that are not flushes. */
  function Logging(calls: seq<Call>): seq<Call> {
    if calls == [] then []
    else (if calls[0].Flush? then [] else [calls[0]]) + Logging(calls[1..])
  }

  lemma {:induction false} LoggingConcat(a: seq<Call>, b: seq<Call>)
    ensures Logging(a + b) == Logging(a) + Logging(b)
  {
    if a == [] {
      assert a + b == b;
    } else {
      ConcatTail(a, b);
      LoggingConcat(a[1..], b);
      Associative(if a[0].Flush? then [] else [a[0]], Logging(a[1..]), Logging(b));
    }
  }

  lemma {:induction false} FlushesDoNotLog(from: nat, count: nat)
    requires from <= count
    decreases count - from
    ensures Logging(Flushes(from, count)) == []
  {
    if from < count {
      FlushesDoNotLog(from + 1, count);
      assert Flushes(from, count)[1..] == Flushes(from + 1, count);
    }
  }

  lemma {:induction false} LoggedOnlyLogs(level: nat, text: string, levels: seq<nat>, from: nat)
    requires from <= |levels|
    decreases |levels| - from
    ensures Logging(Logged(level, text, levels, from)) == Logged(level, text, levels, from)
  {
    if from < |levels| {
      LoggedOnlyLogs(level, text, levels, from + 1);
      var head := [ShouldLog(from, level)] + (if level >= levels[from] then [Write(from, text)] else []);
      LoggingConcat(head, Logged(level, text, levels, from + 1));
      assert head[1..] == (if level >= levels[from] then [Write(from, text)] else []);
      assert |head| == 2 ==> head[1..][1..] == [];
      assert Logging(head) == head;
    }
  }

  /** The messages that were taken out of the queue in the given turns. */
  function Taken(turns: seq<Turn>): seq<AsyncMsg> {
    if turns == [] then []
    else (if turns[0].answer.Some? then [turns[0].answer.value] else []) + Taken(turns[1..])
  }

  lemma {:induction false} TakenPush(turns: seq<Turn>, t: Turn)
    ensures Taken(turns + [t]) == Taken(turns) + if t.answer.Some? then [t.answer.value] else []
  {
    if turns == [] {
      assert [t][1..] == [];
    } else {
      ConcatTail(turns, [t]);
      TakenPush(turns[1..], t);
      Associative(if turns[0].answer.Some? then [turns[0].answer.value] else [], Taken(turns[1..]),
        if t.answer.Some? then [t.answer.value] else []);
    }
  }

  class AsyncLogHelper {
    const levels: seq<nat>
    var flushRequested: bool
    var terminateRequested: bool
    /** The calls made on the sinks so far. */
    ghost var calls: seq<Call>

    constructor (levels: seq<nat>)
      ensures this.levels == levels && !flushRequested && !terminateRequested && calls == []
    {
      this.levels := levels;
      flushRequested := false;
      terminateRequested := false;
      calls := [];
    }

    /** Flushes all sinks if that was asked for or the interval has passed. */
    method HandleFlushInterval(expired: bool)
      modifies this`flushRequested, this`calls
      ensures calls == old(calls) + if old(flushRequested) || expired then Flushes(0, |levels|) else []
      ensures old(flushRequested) || expired ==>
                && |calls| == |old(calls)| + |levels|
                && forall i :: 0 <= i < |levels| ==> calls[|old(calls)| + i] == Flush(i)
      ensures !flushRequested
    {
      if flushRequested || expired {
        var i := 0;
        ghost var target := calls + Flushes(0, |levels|);
        while i < |levels|
          invariant 0 <= i <= |levels| && calls + Flushes(i, |levels|) == target
        {
          Associative(calls, [Flush(i)], Flushes(i + 1, |levels|));
          calls := calls + [Flush(i)];
          i := i + 1;
        }
        flushRequested := false;
      }
    }

    /** A log message passes every sink once, in order: each is asked, and writes directly behind that if and only if
        the message is of its level or above. */
    method LogMessage(level: nat, text: string)
      modifies this`calls
      ensures calls == old(calls) + Logged(level, text, levels, 0)
      ensures forall i: nat ::
                Occurs(calls[|old(calls)|..], ShouldLog(i, level)) == if i < |levels| then 1 else 0
      ensures forall i: nat ::
                Occurs(calls[|old(calls)|..], Write(i, text)) == if i < |levels| && level >= levels[i] then 1 else 0
      ensures forall k :: |old(calls)| <= k < |calls| ==>
                calls[k] == ShouldLog(calls[k].sink, level) || calls[k] == Write(calls[k].sink, text)
      ensures |old(calls)| < |calls| ==> calls[|old(calls)|].ShouldLog?
      ensures forall j, k :: |old(calls)| <= j < k < |calls| && k == j + 1 && calls[k].Write? ==>
                calls[j] == ShouldLog(calls[k].sink, level)
      ensures forall j, k :: |old(calls)| <= j < k < |calls| ==> calls[j].sink <= calls[k].sink
    {
      var i := 0;
      ghost var target := calls + Logged(level, text, levels, 0);
      while i < |levels|
        invariant 0 <= i <= |levels| && calls + Logged(level, text, levels, i) == target
      {
        ghost var write := if level >= levels[i] then [Write(i, text)] else [];
        ghost var rest := Logged(level, text, levels, i + 1);
        Associative(calls, [ShouldLog(i, level)] + write, rest);
        Associative(calls, [ShouldLog(i, level)], write);
        calls := calls + [ShouldLog(i, level)];
        if level >= levels[i] {
          calls := calls + [Write(i, text)];
        }
        i := i + 1;
      }
      assert calls == target;
      forall i: nat
        ensures Occurs(Logged(level, text, levels, 0), ShouldLog(i, level)) == if i < |levels| then 1 else 0
        ensures Occurs(Logged(level, text, levels, 0), Write(i, text))
             == if i < |levels| && level >= levels[i] then 1 else 0
      {
        LoggedCounts(level, text, levels, 0, i);
      }
      ShapeBehind(old(calls), calls, level, text, levels);
      assert calls[|old(calls)|..] == Logged(level, text, levels, 0);
    }

    /** One turn. Only an empty answer of the queue can end the worker, and only after a terminate message. */
    method ProcessNextMsg(turn: Turn) returns (active: bool)
      modifies this
      ensures turn.answer.Some? ==>
                && active && calls == old(calls) + CallsOf(turn.answer.value, levels)
                && flushRequested == (old(flushRequested) || !turn.answer.value.Log?)
                && terminateRequested == (old(terminateRequested) || turn.answer.value == Terminate)
      ensures turn.answer.Some? && turn.answer.value.Log? ==>
                var level, text := turn.answer.value.level, turn.answer.value.text;
                && (forall i: nat ::
                     Occurs(calls[|old(calls)|..], ShouldLog(i, level)) == if i < |levels| then 1 else 0)
                && (forall i: nat ::
                     Occurs(calls[|old(calls)|..], Write(i, text))
                     == if i < |levels| && level >= levels[i] then 1 else 0)
                && (forall k :: |old(calls)| <= k < |calls| ==>
                     calls[k] == ShouldLog(calls[k].sink, level) || calls[k] == Write(calls[k].sink, text))
                && (forall j, k :: |old(calls)| <= j < k < |calls| && k == j + 1 && calls[k].Write? ==>
                     calls[j] == ShouldLog(calls[k].sink, level))
      ensures turn.answer.Some? && !turn.answer.value.Log? ==> calls == old(calls)
      ensures turn.answer.None? ==>
                && active == !old(terminateRequested) && terminateRequested == old(terminateRequested)
                && calls == old(calls) + (if old(flushRequested) || turn.expired then Flushes(0, |levels|) else [])
                && !flushRequested
      ensures turn.answer.None? && (old(flushRequested) || turn.expired) ==>
                && |calls| == |old(calls)| + |levels|
                && forall i :: 0 <= i < |levels| ==> calls[|old(calls)| + i] == Flush(i)
    {
      if turn.answer.Some? {
        match turn.answer.value {
          case FlushRequest => flushRequested := true;
          case Terminate => flushRequested, terminateRequested := true, true;
          case Log(level, text) => LogMessage(level, text);
        }
        return true;
      } else {
        HandleFlushInterval(turn.expired);
        return !terminateRequested;
      }
    }

    /** The worker for the given turns. It leaves at the first empty answer behind a terminate message. What it has
        logged is exactly the messages taken, each once and in order, and when it leaves the last thing it has done
        is to flush all sinks. */
    method WorkerLoop(turns: seq<Turn>) returns (used: nat, finished: bool)
      requires calls == [] && !flushRequested && !terminateRequested
      modifies this
      ensures used <= |turns| && (!finished ==> used == |turns|)
      ensures Logging(calls) == AllCalls(Taken(turns[..used]), levels)
      ensures finished ==> used > 0 && turns[used - 1].answer == None && Terminate in Taken(turns[..used])
      ensures finished ==> EndsWith(calls, Flushes(0, |levels|))
      ensures finished ==>
                |levels| <= |calls| && forall i :: 0 <= i < |levels| ==> calls[|calls| - |levels| + i] == Flush(i)
      ensures forall i :: 0 <= i < |levels| ==> TextsTo(calls, i) == TextsFor(Taken(turns[..used]), levels[i])
      ensures forall i :: 0 <= i < used - 1 ==> turns[i].answer.None? ==> Terminate !in Taken(turns[..i])
      ensures !finished && used > 0 && turns[used - 1].answer.None? ==> Terminate !in Taken(turns[..used - 1])
    {
      hide Taken, Logging, AllCalls, CallsOf, Flushes, EndsWith, TextsTo, TextsFor, Occurs;
      used := 0;
      finished := false;
      NothingYet(turns, levels);
      while used < |turns| && !finished
        invariant used <= |turns|
        invariant Logging(calls) == AllCalls(Taken(turns[..used]), levels)
        invariant terminateRequested <==> Terminate in Taken(turns[..used])
        invariant terminateRequested && !finished ==> flushRequested
        invariant finished ==> used > 0 && turns[used - 1].answer == None && Terminate in Taken(turns[..used])
        invariant finished ==> EndsWith(calls, Flushes(0, |levels|))
        invariant forall i :: 0 <= i < used - (if finished then 1 else 0) ==>
                    turns[i].answer.None? ==> Terminate !in Taken(turns[..i])
        decreases |turns| - used
      {
        ghost var before := calls;
        var turn := turns[used];
        var active := ProcessNextMsg(turn);
        PrefixTaken(turns, used);
        TurnLogs(before, Taken(turns[..used]), turn, levels, calls);
        if !active { LastPart(before, Flushes(0, |levels|)); }
        used := used + 1;
        finished := !active;
      }
      SinksHaveWritten(calls, Taken(turns[..used]), levels);
      if finished { LastCalls(calls, |levels|); }
    }

    /** A push for the given answers of the queue. Without discarding it returns only once the queue has taken the
        message: as long as every answer is a refusal it goes on trying, `pushed` being false. With discarding it
        returns after one try. */
    method PushMsg(answers: seq<bool>, discard: bool) returns (tries: nat, pushed: bool)
      requires answers != []
      ensures 0 < tries <= |answers| && pushed == answers[tries - 1]
      ensures forall i :: 0 <= i < tries - 1 ==> !answers[i]
      ensures if discard then tries == 1 else pushed || tries == |answers|
    {
      tries, pushed := 1, answers[0];
      if !pushed && !discard {
        while !pushed && tries < |answers|
          invariant 0 < tries <= |answers| && pushed == answers[tries - 1]
          invariant forall i :: 0 <= i < tries - 1 ==> !answers[i]
        {
          pushed := answers[tries];
          tries := tries + 1;
        }
      }
    }
  }

  predicate EndsWith(calls: seq<Call>, last: seq<Call>) {
    |last| <= |calls| && calls[|calls| - |last|..] == last
  }

  lemma NothingYet(turns: seq<Turn>, levels: seq<nat>)
    ensures Taken(turns[..0]) == [] && Logging([]) == [] && AllCalls([], levels) == []
  {}

  lemma PrefixTaken(turns: seq<Turn>, k: nat)
    requires k < |turns|
    ensures Taken(turns[..k + 1]) == Taken(turns[..k]) + if turns[k].answer.Some? then [turns[k].answer.value] else []
  {
    assert turns[..k + 1] == turns[..k] + [turns[k]];
    TakenPush(turns[..k], turns[k]);
  }

  /** A turn logs its message, if it has one, and nothing else. */
  lemma TurnLogs(before: seq<Call>, taken: seq<AsyncMsg>, turn: Turn, levels: seq<nat>, after: seq<Call>)
    requires Logging(before) == AllCalls(taken, levels)
    requires turn.answer.Some? ==> after == before + CallsOf(turn.answer.value, levels)
    requires turn.answer.None? ==> after == before + [] || after == before + Flushes(0, |levels|)
    ensures Logging(after) == AllCalls(taken + if turn.answer.Some? then [turn.answer.value] else [], levels)
  {
    hide CallsOf, Flushes;
    if turn.answer.Some? {
      LoggingConcat(before, CallsOf(turn.answer.value, levels));
      OneMessage(turn.answer.value, levels);
      AllCallsPush(taken, turn.answer.value, levels);
    } else {
      LoggingConcat(before, Flushes(0, |levels|));
      FlushesDoNotLog(0, |levels|);
      assert before + [] == before && taken + [] == taken;
      assert Logging(before) + [] == Logging(before);
    }
  }

  lemma LastCalls(calls: seq<Call>, n: nat)
    requires EndsWith(calls, Flushes(0, n))
    ensures n <= |calls| && forall i :: 0 <= i < n ==> calls[|calls| - n + i] == Flush(i)
  {
    var last := Flushes(0, n);
    assert forall i :: 0 <= i < n ==> calls[|calls| - n + i] == calls[|calls| - n..][i] == last[i];
  }

  lemma SinksHaveWritten(calls: seq<Call>, taken: seq<AsyncMsg>, levels: seq<nat>)
    requires Logging(calls) == AllCalls(taken, levels)
    ensures forall i :: 0 <= i < |levels| ==> TextsTo(calls, i) == TextsFor(taken, levels[i])
  {
    forall i | 0 <= i < |levels| ensures TextsTo(calls, i) == TextsFor(taken, levels[i]) {
      LoggingTexts(calls, i);
      EverySinkWrites(taken, levels, i);
    }
  }

  lemma LastPart(a: seq<Call>, b: seq<Call>)
    ensures EndsWith(a + b, b)
  {}

  lemma OneMessage(m: AsyncMsg, levels: seq<nat>)
    ensures Logging(CallsOf(m, levels)) == CallsOf(m, levels)
  {
    if m.Log? { LoggedOnlyLogs(m.level, m.text, levels, 0); }
  }
}
