/** The tracking multiplexer: many client sessions, one positioning engine that runs at a single
    interval.  Commands restart the engine incrementally; what they must achieve is that the engine
    runs at the smallest interval any session asks for, and is idle when there is none. */
module Tracking {
  import opened Options

  datatype SessionKey = SessionKey(client: nat, id: nat)

  /** A zero `size` marks options nobody filled in. */
  datatype LocationOptions = LocationOptions(size: nat, minInterval: nat)

  datatype LocationError = SUCCESS | CALLBACK_MISSING | INVALID_PARAMETER | GENERAL_FAILURE

  type Sessions = map<SessionKey, LocationOptions>

  // ---------- what the engine should do ----------

  ghost predicate IsMin(sessions: Sessions, interval: nat) {
    (exists k :: k in sessions && sessions[k].minInterval == interval) &&
    forall k :: k in sessions ==> interval <= sessions[k].minInterval
  }

  /** `engine` is the interval of the running engine, None when it is idle. */
  ghost predicate Serves(engine: Option<nat>, sessions: Sessions) {
    match engine
    case None => sessions == map[]
    case Some(interval) => IsMin(sessions, interval)
  }

  /** No stored options look unfilled. */
  ghost predicate Filled(sessions: Sessions) {
    forall k :: k in sessions ==> sessions[k].size != 0
  }

  lemma {:induction false} MinExists(sessions: Sessions)
    requires sessions != map[]
    ensures exists interval: nat :: IsMin(sessions, interval)
    decreases |sessions|
  {
    var k :| k in sessions;
    var others := sessions - {k};
    if others == map[] {
      assert forall j :: j in sessions ==> j == k || j in others;
      assert IsMin(sessions, sessions[k].minInterval);
    } else {
      assert sessions.Keys == others.Keys + {k};
      assert |sessions.Keys| == |others.Keys| + 1;
      MinExists(others);
      var rest: nat :| IsMin(others, rest);
      MinWith(sessions, k, sessions[k], rest);
      assert sessions[k := sessions[k]] == sessions;
    }
  }

  ghost function MinOf(sessions: Sessions): (interval: nat)
    requires sessions != map[]
    ensures IsMin(sessions, interval)
  {
    MinExists(sessions);
    var interval: nat :| IsMin(sessions, interval);
    interval
  }

  // ---------- the incremental rules ----------

  datatype EngineCall = NoCall | StartFix(interval: nat) | StopFix

  /** What starting a session asks of the engine. */
  ghost function StartCall(sessions: Sessions, options: LocationOptions): EngineCall {
    if sessions == map[] then StartFix(options.minInterval)
    else if options.minInterval < MinOf(sessions) then StartFix(options.minInterval)
    else NoCall
  }

  /** What updating an existing session asks of the engine. */
  ghost function UpdateCall(sessions: Sessions, key: SessionKey, options: LocationOptions): EngineCall
    requires key in sessions
  {
    if |sessions| == 1 then StartFix(options.minInterval)
    else
      OnlySession(sessions, key);
      var smallest := MinOf(sessions - {key});
      if options.minInterval < smallest then StartFix(options.minInterval)
      else if sessions[key].minInterval < smallest then StartFix(smallest)
      else NoCall
  }

  /** What stopping an existing session asks of the engine. */
  ghost function StopCall(sessions: Sessions, key: SessionKey): EngineCall
    requires key in sessions
  {
    if |sessions| == 1 then StopFix
    else
      OnlySession(sessions, key);
      var smallest := MinOf(sessions - {key});
      if sessions[key].minInterval < smallest then StartFix(smallest) else NoCall
  }

  function AfterCall(engine: Option<nat>, call: EngineCall): Option<nat> {
    match call
    case NoCall => engine
    case StartFix(interval) => Some(interval)
    case StopFix => None
  }

  lemma OnlySession(sessions: Sessions, key: SessionKey)
    requires key in sessions
    ensures |sessions| == 1 <==> sessions - {key} == map[]
  {
    assert sessions.Keys == (sessions - {key}).Keys + {key};
    assert |sessions.Keys| == |(sessions - {key}).Keys| + 1;
  }

  lemma MinIsUnique(sessions: Sessions, a: Option<nat>, b: Option<nat>)
    requires Serves(a, sessions) && Serves(b, sessions)
    ensures a == b
  {
  }

  /** A new session: the engine is asked to change exactly when it has to, and rightly. */
  lemma StartRefines(engine: Option<nat>, sessions: Sessions, key: SessionKey, options: LocationOptions)
    requires Serves(engine, sessions) && key !in sessions
    ensures Serves(AfterCall(engine, StartCall(sessions, options)), sessions[key := options])
    ensures StartCall(sessions, options) == NoCall <==> Serves(engine, sessions[key := options])
  {
    var after := sessions[key := options];
    assert after[key] == options;
    if sessions != map[] {
      var smallest := MinOf(sessions);
      MinIsUnique(sessions, engine, Some(smallest));
      var k :| k in sessions && sessions[k].minInterval == smallest;
      assert after[k] == sessions[k];
    }
  }

  /** The minimum with one session put in or changed. */
  lemma MinWith(sessions: Sessions, key: SessionKey, options: LocationOptions, smallest: nat)
    requires IsMin(sessions - {key}, smallest)
    ensures IsMin(sessions[key := options], if options.minInterval < smallest then options.minInterval else smallest)
  {
    var others, after := sessions - {key}, sessions[key := options];
    var k :| k in others && others[k].minInterval == smallest;
    assert after[k].minInterval == smallest && after[key] == options;
    assert forall j :: j in after ==> j == key || j in others;
  }

  lemma EngineWith(engine: Option<nat>, sessions: Sessions, key: SessionKey, smallest: nat)
    requires key in sessions && IsMin(sessions - {key}, smallest) && Serves(engine, sessions)
    ensures engine == Some(if sessions[key].minInterval < smallest then sessions[key].minInterval else smallest)
  {
    MinWith(sessions, key, sessions[key], smallest);
    assert sessions[key := sessions[key]] == sessions;
  }

  lemma UpdateRefines(engine: Option<nat>, sessions: Sessions, key: SessionKey, options: LocationOptions)
    requires Serves(engine, sessions) && key in sessions
    ensures Serves(AfterCall(engine, UpdateCall(sessions, key, options)), sessions[key := options])
  {
    OnlySession(sessions, key);
    var after := sessions[key := options];
    assert after[key] == options;
    if |sessions| == 1 {
      assert forall j :: j in sessions ==> j == key || j in sessions - {key};
    } else {
      EngineWith(engine, sessions, key, MinOf(sessions - {key}));
      MinWith(sessions, key, options, MinOf(sessions - {key}));
    }
  }

  /** An update asks the engine unless another session's interval is as small as both the old and the new
      one: a session that is alone, or below all others before or after, always restarts the engine. */
  lemma UpdateAsksIff(sessions: Sessions, key: SessionKey, options: LocationOptions)
    requires key in sessions
    ensures UpdateCall(sessions, key, options) == NoCall <==>
            exists k :: k in sessions && k != key &&
              sessions[k].minInterval <= options.minInterval && sessions[k].minInterval <= sessions[key].minInterval
  {
    OnlySession(sessions, key);
    var others := sessions - {key};
    if |sessions| == 1 {
      assert forall k :: k in sessions ==> k == key || k in others;
    } else {
      var k :| k in others && others[k].minInterval == MinOf(others);
      assert k in sessions && k != key && sessions[k].minInterval == MinOf(others);
      assert forall j :: j in sessions && j != key ==> j in others;
    }
  }

  /** A session gone: the engine is asked to change exactly when it has to, and rightly. */
  lemma StopRefines(engine: Option<nat>, sessions: Sessions, key: SessionKey)
    requires Serves(engine, sessions) && key in sessions
    ensures Serves(AfterCall(engine, StopCall(sessions, key)), sessions - {key})
    ensures StopCall(sessions, key) == NoCall <==> Serves(engine, sessions - {key})
  {
    OnlySession(sessions, key);
    if |sessions| != 1 {
      var smallest := MinOf(sessions - {key});
      EngineWith(engine, sessions, key, smallest);
      if Serves(engine, sessions - {key}) { MinIsUnique(sessions - {key}, engine, Some(smallest)); }
    }
  }

  // ---------- runs ----------

  datatype Mux = Mux(sessions: Sessions, engine: Option<nat>)

  /** Commands; `accepted` is the engine's answer if it is called.  `EngineUp` is the engine coming
      back idle after a restart. */
  datatype Op =
    | Start(key: SessionKey, hasCallback: bool, options: LocationOptions, accepted: bool)
    | Update(key: SessionKey, options: LocationOptions, accepted: bool)
    | Stop(key: SessionKey, accepted: bool)
    | EngineUp(accepted: bool)

  ghost function Next(m: Mux, op: Op): Mux {
    match op
    case Start(key, hasCallback, options, accepted) =>
      var call := StartCall(m.sessions, options);
      if !hasCallback || options.size == 0 || (call != NoCall && !accepted) then m
      else Mux(m.sessions[key := options], AfterCall(m.engine, call))
    case Update(key, options, accepted) =>
      if key !in m.sessions || options.size == 0 then m
      else
        var call := UpdateCall(m.sessions, key, options);
        if call != NoCall && !accepted then m else Mux(m.sessions[key := options], AfterCall(m.engine, call))
    case Stop(key, accepted) =>
      if key !in m.sessions then m
      else
        var call := StopCall(m.sessions, key);
        if call != NoCall && !accepted then m else Mux(m.sessions - {key}, AfterCall(m.engine, call))
    case EngineUp(accepted) =>
      if m.sessions == map[] || !accepted then m.(engine := None)
      else m.(engine := Some(MinOf(m.sessions)))
  }

  /** Whether the operation is answered with success: its arguments are good, and the engine accepts if
      it is asked. */
  ghost predicate Succeeds(m: Mux, op: Op) {
    && (match op
        case Start(_, hasCallback, options, _) => hasCallback && options.size != 0
        case Update(key, options, _) => key in m.sessions && options.size != 0
        case Stop(key, _) => key in m.sessions
        case EngineUp(_) => true)
    && (CallOf(m, op) == NoCall || op.accepted)
  }

  /** What the operations and their answers say of the sessions. */
  function Kept(ops: seq<Op>, answers: seq<bool>): Sessions
    requires |answers| == |ops|
  {
    if ops == [] then map[]
    else
      var n := |ops| - 1;
      var earlier := Kept(ops[..n], answers[..n]);
      if !answers[n] then earlier
      else
        match ops[n]
        case Start(key, _, options, _) => earlier[key := options]
        case Update(key, options, _) => earlier[key := options]
        case Stop(key, _) => earlier - {key}
        case EngineUp(_) => earlier
  }

  /** In every run the map holds exactly the sessions whose start was answered with success and that have
      not been stopped, each with the options of its last successful start or update. */
  lemma {:induction false} MapHoldsTheStarted(ops: seq<Op>, answers: seq<bool>)
    requires |answers| == |ops|
    requires forall i :: 0 <= i < |ops| ==> answers[i] == Succeeds(Run(ops[..i]), ops[i])
    ensures Run(ops).sessions == Kept(ops, answers)
  {
    if ops != [] {
      var n := |ops| - 1;
      forall i | 0 <= i < n ensures answers[..n][i] == Succeeds(Run(ops[..n][..i]), ops[..n][i]) {
        assert ops[..n][..i] == ops[..i];
      }
      MapHoldsTheStarted(ops[..n], answers[..n]);
    }
  }

  ghost function Fold(m: Mux, ops: seq<Op>): Mux {
    if ops == [] then m else Next(Fold(m, ops[..|ops| - 1]), ops[|ops| - 1])
  }

  const IDLE := Mux(map[], None)

  ghost function Run(ops: seq<Op>): Mux {
    Fold(IDLE, ops)
  }

  /** Session ids are generated, so a started session is new. */
  ghost predicate FreshKeys(ops: seq<Op>) {
    ops == [] ||
    (FreshKeys(ops[..|ops| - 1]) && (ops[|ops| - 1].Start? ==> ops[|ops| - 1].key !in Run(ops[..|ops| - 1]).sessions))
  }

  /** What an operation asks of the engine. */
  ghost function CallOf(m: Mux, op: Op): EngineCall {
    match op
    case Start(_, hasCallback, options, _) =>
      if !hasCallback || options.size == 0 then NoCall else StartCall(m.sessions, options)
    case Update(key, options, _) =>
      if key !in m.sessions || options.size == 0 then NoCall else UpdateCall(m.sessions, key, options)
    case Stop(key, _) => if key !in m.sessions then NoCall else StopCall(m.sessions, key)
    case EngineUp(_) => if m.sessions == map[] then NoCall else StartFix(MinOf(m.sessions))
  }

  /** The engine came up, refused the sessions it was handed, and has accepted no call since. */
  ghost predicate Stranded(ops: seq<Op>) {
    ops != [] &&
    var m, last := Run(ops[..|ops| - 1]), ops[|ops| - 1];
    if last.EngineUp? then m.sessions != map[] && !last.accepted
    else Stranded(ops[..|ops| - 1]) && (CallOf(m, last) == NoCall || !last.accepted)
  }

  /** Whatever the engine was doing, an accepted call leaves it as the sessions need it. */
  lemma AcceptedCallServes(m: Mux, op: Op)
    requires op.Start? ==> op.key !in m.sessions
    requires op.accepted && CallOf(m, op) != NoCall
    ensures Serves(Next(m, op).engine, Next(m, op).sessions)
  {
    var engine := if m.sessions == map[] then None else Some(MinOf(m.sessions));
    assert Serves(engine, m.sessions);
    NextServes(Mux(m.sessions, engine), op);
  }

  lemma NextServes(m: Mux, op: Op)
    requires Serves(m.engine, m.sessions) && (op.Start? ==> op.key !in m.sessions)
    requires op.EngineUp? ==> op.accepted || m.sessions == map[]
    ensures Serves(Next(m, op).engine, Next(m, op).sessions)
  {
    match op
    case Start(key, _, options, _) => StartRefines(m.engine, m.sessions, key, options);
    case Update(key, options, _) => if key in m.sessions { UpdateRefines(m.engine, m.sessions, key, options); }
    case Stop(key, _) => if key in m.sessions { StopRefines(m.engine, m.sessions, key); }
    case EngineUp(_) =>
  }

  /** Without a call to the engine nobody's last session goes. */
  lemma StaysStranded(m: Mux, op: Op)
    requires m.engine.None? && m.sessions != map[] && !op.EngineUp?
    requires CallOf(m, op) == NoCall || !op.accepted
    ensures Next(m, op).engine.None? && Next(m, op).sessions != map[]
  {
    match op
    case Start(key, _, options, _) => assert key in m.sessions[key := options];
    case Update(key, options, _) => assert key in m.sessions[key := options];
    case Stop(key, _) => if key in m.sessions { OnlySession(m.sessions, key); }
  }

  /** After any run of commands, refused engine calls included: the engine is idle exactly when there
      is no session and otherwise runs at the smallest interval of all sessions, if and only if it is
      not stranded.  Stranded, it idles while there are sessions. */
  lemma {:induction false} EngineRunsAtMinimumIff(ops: seq<Op>)
    requires FreshKeys(ops)
    ensures var m := Run(ops);
            && (Serves(m.engine, m.sessions) <==> !Stranded(ops))
            && (Stranded(ops) ==> m.engine.None? && m.sessions != map[])
  {
    if ops != [] {
      hide StartCall, UpdateCall, StopCall, Serves, CallOf, FreshKeys;
      StrandedMeans(ops);
      var front, last := ops[..|ops| - 1], ops[|ops| - 1];
      FreshLast(ops);
      EngineRunsAtMinimumIff(front);
      IdleServesOnlyNobody(Run(ops));
      if last.EngineUp? {
        RestartServes(Run(front), last);
      } else if !Stranded(front) {
        NextServes(Run(front), last);
      } else if Stranded(ops) {
        StaysStranded(Run(front), last);
      } else {
        AcceptedCallServes(Run(front), last);
      }
    } else {
      assert Serves(None, map[]);
    }
  }

  lemma StrandedMeans(ops: seq<Op>)
    requires ops != []
    ensures var front, last := ops[..|ops| - 1], ops[|ops| - 1];
            && Run(ops) == Next(Run(front), last)
            && (Stranded(ops) <==>
                  if last.EngineUp? then Run(front).sessions != map[] && !last.accepted
                  else Stranded(front) && (CallOf(Run(front), last) == NoCall || !last.accepted))
  {
  }

  lemma FreshLast(ops: seq<Op>)
    requires FreshKeys(ops) && ops != []
    ensures FreshKeys(ops[..|ops| - 1])
    ensures ops[|ops| - 1].Start? ==> ops[|ops| - 1].key !in Run(ops[..|ops| - 1]).sessions
  {
  }

  lemma IdleServesOnlyNobody(m: Mux)
    ensures m.engine.None? ==> (Serves(m.engine, m.sessions) <==> m.sessions == map[])
  {
  }

  lemma RestartServes(m: Mux, op: Op)
    requires op.EngineUp?
    ensures Serves(Next(m, op).engine, Next(m, op).sessions) <==> m.sessions == map[] || op.accepted
    ensures Next(m, op).sessions == m.sessions
    ensures !op.accepted ==> Next(m, op).engine.None?
  {
  }

  lemma {:induction false} NeverStranded(ops: seq<Op>)
    requires forall i :: 0 <= i < |ops| && ops[i].EngineUp? ==> ops[i].accepted
    ensures !Stranded(ops)
  {
    if ops != [] { NeverStranded(ops[..|ops| - 1]); }
  }

  /** When the engine always takes its sessions back after a restart, it always serves them. */
  lemma EngineRunsAtMinimum(ops: seq<Op>)
    requires FreshKeys(ops)
    requires forall i :: 0 <= i < |ops| && ops[i].EngineUp? ==> ops[i].accepted
    ensures var m := Run(ops); Serves(m.engine, m.sessions) && (m.engine.None? <==> m.sessions == map[])
  {
    NeverStranded(ops);
    EngineRunsAtMinimumIff(ops);
  }

  lemma {:induction false} StaysFilled(ops: seq<Op>)
    ensures Filled(Run(ops).sessions)
  {
    if ops != [] { StaysFilled(ops[..|ops| - 1]); }
  }

  /** Running on from a run is a run. */
  lemma {:induction false} RunsOn(m: Mux, ops: seq<Op>, more: seq<Op>)
    ensures Fold(Fold(m, ops), more) == Fold(m, ops + more)
  {
    if more == [] {
      assert ops + more == ops;
    } else {
      RunsOn(m, ops, more[..|more| - 1]);
      assert (ops + more)[..|ops + more| - 1] == ops + more[..|more| - 1];
    }
  }

  /** What a departing client leaves: its stops, refused or not, continue the run; they never spoil what
      the engine does, and if it was stranded it serves the sessions that stay exactly if it is not
      stranded any more. */
  lemma DepartureServes(ops: seq<Op>, stops: seq<Op>)
    requires FreshKeys(ops) && forall i :: 0 <= i < |stops| ==> stops[i].Stop?
    ensures var m := Fold(Run(ops), stops);
            && m == Run(ops + stops) && FreshKeys(ops + stops)
            && (!Stranded(ops) ==> Serves(m.engine, m.sessions))
            && (Serves(m.engine, m.sessions) <==> !Stranded(ops + stops))
  {
    RunsOn(IDLE, ops, stops);
    StopsAreFresh(ops, stops);
    EngineRunsAtMinimumIff(ops);
    EngineRunsAtMinimumIff(ops + stops);
    if !Stranded(ops) { StopsServe(Run(ops), stops); }
  }

  lemma {:induction false} StopsAreFresh(ops: seq<Op>, stops: seq<Op>)
    requires FreshKeys(ops) && forall i :: 0 <= i < |stops| ==> stops[i].Stop?
    ensures FreshKeys(ops + stops)
  {
    if stops == [] {
      assert ops + stops == ops;
    } else {
      StopsAreFresh(ops, stops[..|stops| - 1]);
      assert (ops + stops)[..|ops + stops| - 1] == ops + stops[..|stops| - 1];
    }
  }

  lemma {:induction false} StopsServe(m: Mux, stops: seq<Op>)
    requires Serves(m.engine, m.sessions) && forall i :: 0 <= i < |stops| ==> stops[i].Stop?
    ensures Serves(Fold(m, stops).engine, Fold(m, stops).sessions)
  {
    if stops != [] {
      StopsServe(m, stops[..|stops| - 1]);
      NextServes(Fold(m, stops[..|stops| - 1]), stops[|stops| - 1]);
    }
  }

  /** A stranded run: one session, and an engine that comes up and refuses it. */
  lemma StrandedRun(key: SessionKey, options: LocationOptions)
    requires options.size != 0
    ensures FreshKeys([Start(key, true, options, true), EngineUp(false)])
    ensures Stranded([Start(key, true, options, true), EngineUp(false)])
  {
    var start := Start(key, true, options, true);
    assert [start, EngineUp(false)][..1] == [start] && [start][..0] == [];
    FoldNone(IDLE);
    FoldOneMore(IDLE, [], start);
    assert [] + [start] == [start];
    assert key in Run([start]).sessions;
  }

  lemma FoldNone(m: Mux)
    ensures Fold(m, []) == m
  {
  }

  lemma FoldOne(m: Mux, op: Op)
    ensures Fold(m, [op]) == Next(m, op)
  {
    FoldNone(m);
    FoldOneMore(m, [], op);
    assert [] + [op] == [op];
  }

  lemma FoldOneMore(m: Mux, ops: seq<Op>, op: Op)
    ensures Fold(m, ops + [op]) == Next(Fold(m, ops), op)
  {
    assert (ops + [op])[..|ops|] == ops;
  }

  // ---------- the adapter ----------

  /** A call of the engine and its answer. */
  datatype Asked = Asked(call: EngineCall, accepted: bool)

  function AskedOnce(call: EngineCall, accepted: bool): seq<Asked> {
    if call.NoCall? then [] else [Asked(call, accepted)]
  }

  function Refusals(asked: seq<Asked>): nat {
    if asked == [] then 0
    else Refusals(asked[..|asked| - 1]) + if asked[|asked| - 1].accepted then 0 else 1
  }

  lemma RefusalsAfter(asked: seq<Asked>, call: EngineCall, accepted: bool)
    ensures Refusals(asked + AskedOnce(call, accepted)) ==
            Refusals(asked) + if call.NoCall? || accepted then 0 else 1
  {
    if call.NoCall? {
      assert asked + [] == asked;
    } else {
      assert (asked + [Asked(call, accepted)])[..|asked|] == asked;
    }
  }

  class GnssAdapter {
    var mTrackingSessions: Sessions
    var engine: Option<nat>
    var asked: seq<Asked>

    /** The engine was asked since, and refused. */
    ghost predicate RefusedSince(before: seq<Asked>)
      reads this
    {
      |asked| > |before| && !asked[|asked| - 1].accepted
    }

    ghost function State(): Mux
      reads this
    {
      Mux(mTrackingSessions, engine)
    }

    constructor ()
      ensures State() == Run([]) && asked == []
    {
      mTrackingSessions, engine, asked := map[], None, [];
    }

    /** The engine accepts or refuses; a refused call changes nothing. */
    method StartTracking(interval: nat) returns (err: LocationError)
      modifies this`engine, this`asked
      ensures err == SUCCESS || err == GENERAL_FAILURE
      ensures asked == old(asked) + [Asked(StartFix(interval), err == SUCCESS)]
      ensures engine == if err == SUCCESS then Some(interval) else old(engine)
    {
      var accepted: bool := *;
      err := if accepted then SUCCESS else GENERAL_FAILURE;
      asked := asked + [Asked(StartFix(interval), accepted)];
      if accepted {
        engine := Some(interval);
      }
    }

    method StopTracking() returns (err: LocationError)
      modifies this`engine, this`asked
      ensures err == SUCCESS || err == GENERAL_FAILURE
      ensures asked == old(asked) + [Asked(StopFix, err == SUCCESS)]
      ensures engine == if err == SUCCESS then None else old(engine)
    {
      var accepted: bool := *;
      err := if accepted then SUCCESS else GENERAL_FAILURE;
      asked := asked + [Asked(StopFix, accepted)];
      if accepted {
        engine := None;
      }
    }

    /** The loop over the session map for the options with the smallest interval, leaving out
        `except`; unfilled options when there is no other session. */
    method SmallestIntervalOptions(except: Option<SessionKey>) returns (smallest: LocationOptions)
      requires Filled(mTrackingSessions)
      ensures var others := match except
                            case None => mTrackingSessions
                            case Some(key) => mTrackingSessions - {key};
              if others == map[] then smallest == LocationOptions(0, 0)
              else smallest.size != 0 && smallest.minInterval == MinOf(others)
    {
      hide IsMin, IsSmallestOf;
      NothingSeen();
      ghost var others := match except
                          case None => mTrackingSessions
                          case Some(key) => mTrackingSessions - {key};
      smallest := LocationOptions(0, 0);
      var rest := mTrackingSessions.Keys;
      ghost var seen: Sessions := map[];
      while rest != {}
        invariant rest <= mTrackingSessions.Keys
        invariant seen == others - rest
        invariant IsSmallestOf(smallest, seen)
        decreases |rest|
      {
        var k :| k in rest;
        SeenOneMore(others, seen, rest, k);
        rest := rest - {k};
        var options := mTrackingSessions[k];
        if except != Some(k) {
          SmallestWith(smallest, seen, k, options);
          seen := seen[k := options];
        }
        if except != Some(k) && (smallest.size == 0 || options.minInterval < smallest.minInterval) {
          smallest := options;
        }
      }
      assert others - {} == others;
      SmallestDone(smallest, others);
    }

    method StartTrackingMultiplex(options: LocationOptions) returns (err: LocationError)
      requires Filled(mTrackingSessions)
      modifies this`engine, this`asked
      ensures err == SUCCESS || (err == GENERAL_FAILURE && StartCall(mTrackingSessions, options) != NoCall)
      ensures asked == old(asked) + AskedOnce(StartCall(mTrackingSessions, options), err == SUCCESS)
      ensures engine == if err == SUCCESS then AfterCall(old(engine), StartCall(mTrackingSessions, options))
                        else old(engine)
    {
      err := SUCCESS;
      if mTrackingSessions == map[] {
        err := StartTracking(options.minInterval);
      } else {
        var smallest := SmallestIntervalOptions(None);
        if options.minInterval < smallest.minInterval {
          err := StartTracking(options.minInterval);
        }
      }
    }

    method UpdateTrackingMultiplex(key: SessionKey, options: LocationOptions) returns (err: LocationError)
      requires Filled(mTrackingSessions) && key in mTrackingSessions
      modifies this`engine, this`asked
      ensures err == SUCCESS || (err == GENERAL_FAILURE && UpdateCall(mTrackingSessions, key, options) != NoCall)
      ensures asked == old(asked) + AskedOnce(UpdateCall(mTrackingSessions, key, options), err == SUCCESS)
      ensures engine == if err == SUCCESS then AfterCall(old(engine), UpdateCall(mTrackingSessions, key, options))
                        else old(engine)
    {
      OnlySession(mTrackingSessions, key);
      err := SUCCESS;
      if |mTrackingSessions| == 1 {
        err := StartTracking(options.minInterval);
      } else if key in mTrackingSessions {
        var smallest := SmallestIntervalOptions(Some(key));
        if options.minInterval < smallest.minInterval {
          err := StartTracking(options.minInterval);
        } else if mTrackingSessions[key].minInterval < smallest.minInterval {
          err := StartTracking(smallest.minInterval);
        }
      }
    }

    method StopTrackingMultiplex(key: SessionKey) returns (err: LocationError)
      requires Filled(mTrackingSessions) && key in mTrackingSessions
      modifies this`engine, this`asked
      ensures err == SUCCESS || (err == GENERAL_FAILURE && StopCall(mTrackingSessions, key) != NoCall)
      ensures asked == old(asked) + AskedOnce(StopCall(mTrackingSessions, key), err == SUCCESS)
      ensures engine == if err == SUCCESS then AfterCall(old(engine), StopCall(mTrackingSessions, key))
                        else old(engine)
    {
      OnlySession(mTrackingSessions, key);
      err := SUCCESS;
      if |mTrackingSessions| == 1 {
        err := StopTracking();
      } else if key in mTrackingSessions {
        var smallest := SmallestIntervalOptions(Some(key));
        if mTrackingSessions[key].minInterval < smallest.minInterval {
          err := StartTracking(smallest.minInterval);
        }
      }
    }

    method StartTrackingCommand(key: SessionKey, hasCallback: bool, options: LocationOptions)
      returns (err: LocationError)
      requires Filled(mTrackingSessions)
      modifies this
      ensures State() == Next(old(State()), Start(key, hasCallback, options, err == SUCCESS))
      ensures err == CALLBACK_MISSING <==> !hasCallback
      ensures err == INVALID_PARAMETER <==> hasCallback && options.size == 0
      ensures err == GENERAL_FAILURE <==> RefusedSince(old(asked))
      ensures err == SUCCESS ==> mTrackingSessions == old(mTrackingSessions)[key := options]
      ensures err != SUCCESS ==> State() == old(State())
      ensures asked == old(asked) +
                       AskedOnce(old(CallOf(State(), Start(key, hasCallback, options, true))), err == SUCCESS)
    {
      if !hasCallback {
        err := CALLBACK_MISSING;
      } else if options.size == 0 {
        err := INVALID_PARAMETER;
      } else {
        err := StartTrackingMultiplex(options);
        if err == SUCCESS {
          mTrackingSessions := mTrackingSessions[key := options];
        }
      }
    }

    /** None when there is no such session: then nothing is reported. */
    method UpdateTrackingOptionsCommand(key: SessionKey, options: LocationOptions)
      returns (err: Option<LocationError>)
      requires Filled(mTrackingSessions)
      modifies this
      ensures State() == Next(old(State()), Update(key, options, err == Some(SUCCESS)))
      ensures err.None? <==> key !in old(mTrackingSessions)
      ensures err == Some(INVALID_PARAMETER) <==> key in old(mTrackingSessions) && options.size == 0
      ensures err == Some(GENERAL_FAILURE) <==> RefusedSince(old(asked))
      ensures err != Some(CALLBACK_MISSING)
      ensures err == Some(SUCCESS) ==> mTrackingSessions == old(mTrackingSessions)[key := options]
      ensures err != Some(SUCCESS) ==> State() == old(State())
      ensures asked == old(asked) + AskedOnce(old(CallOf(State(), Update(key, options, true))), err == Some(SUCCESS))
    {
      err := None;
      if key in mTrackingSessions {
        if options.size == 0 {
          err := Some(INVALID_PARAMETER);
        } else {
          var e := UpdateTrackingMultiplex(key, options);
          if e == SUCCESS {
            mTrackingSessions := mTrackingSessions[key := options];
          }
          err := Some(e);
        }
      }
    }

    method StopTrackingCommand(key: SessionKey) returns (err: Option<LocationError>)
      requires Filled(mTrackingSessions)
      modifies this
      ensures State() == Next(old(State()), Stop(key, err == Some(SUCCESS)))
      ensures err.None? <==> key !in old(mTrackingSessions)
      ensures err.Some? ==> err == Some(SUCCESS) || err == Some(GENERAL_FAILURE)
      ensures err == Some(GENERAL_FAILURE) <==> RefusedSince(old(asked))
      ensures err == Some(SUCCESS) ==> mTrackingSessions == old(mTrackingSessions) - {key}
      ensures err != Some(SUCCESS) ==> State() == old(State())
      ensures asked == old(asked) + AskedOnce(old(CallOf(State(), Stop(key, true))), err == Some(SUCCESS))
    {
      err := None;
      if key in mTrackingSessions {
        var e := StopTrackingMultiplex(key);
        if e == SUCCESS {
          mTrackingSessions := mTrackingSessions - {key};
        }
        err := Some(e);
      }
    }

    method StopAndErase(key: SessionKey) returns (err: LocationError)
      requires Filled(mTrackingSessions) && key in mTrackingSessions
      modifies this
      ensures Filled(mTrackingSessions)
      ensures State() == Next(old(State()), Stop(key, err == SUCCESS))
      ensures Refusals(asked) == Refusals(old(asked)) + if err == SUCCESS then 0 else 1
      ensures mTrackingSessions == if err == SUCCESS then old(mTrackingSessions) - {key} else old(mTrackingSessions)
    {
      hide StopCall, Refusals;
      RefusalsAfter(asked, StopCall(mTrackingSessions, key), true);
      RefusalsAfter(asked, StopCall(mTrackingSessions, key), false);
      err := StopTrackingMultiplex(key);
      if err == SUCCESS {
        mTrackingSessions := mTrackingSessions - {key};
      }
    }

    /** Stops the client's sessions one by one; one stays for each refusal of the engine.  `stops` are the
        operations that amounts to. */
    method StopClientSessions(client: nat) returns (refused: set<SessionKey>, ghost stops: seq<Op>)
      requires Filled(mTrackingSessions)
      modifies this
      ensures State() == Fold(old(State()), stops)
      ensures forall i :: 0 <= i < |stops| ==> stops[i].Stop? && stops[i].key.client == client
      ensures Filled(mTrackingSessions)
      ensures Serves(old(engine), old(mTrackingSessions)) ==> Serves(engine, mTrackingSessions)
      ensures forall k :: k in refused ==> k in old(mTrackingSessions) && k.client == client
      ensures Refusals(asked) == Refusals(old(asked)) + |refused|
      ensures mTrackingSessions ==
              old(mTrackingSessions) - (set k | k in old(mTrackingSessions) && k.client == client && k !in refused)
    {
      hide Filled, Fold, Next, Serves, Refusals;
      refused, stops := {}, [];
      var rest := mTrackingSessions.Keys;
      ghost var all, start := mTrackingSessions, State();
      ghost var stopped: set<SessionKey> := {};
      FoldNone(start);
      while rest != {}
        invariant forall k :: k in refused ==> k in all && k.client == client
        invariant Refusals(asked) == Refusals(old(asked)) + |refused|
        invariant refused <= all.Keys && rest <= all.Keys - stopped - refused && refused !! stopped
        invariant Filled(mTrackingSessions)
        invariant State() == Fold(start, stops)
        invariant forall i :: 0 <= i < |stops| ==> stops[i].Stop? && stops[i].key.client == client
        invariant mTrackingSessions == all - stopped
        invariant forall k :: k in stopped ==> k in all && k.client == client
        invariant forall k :: k in all && k.client == client ==> k in stopped || k in refused || k in rest
        decreases |rest|
      {
        var k :| k in rest;
        rest := rest - {k};
        if k.client == client {
          var err := StopAndErase(k);
          FoldOneMore(start, stops, Stop(k, err == SUCCESS));
          stops := stops + [Stop(k, err == SUCCESS)];
          if err == SUCCESS {
            MinusOneMore(all, stopped, k);
            stopped := stopped + {k};
          } else {
            refused := refused + {k};
          }
        }
      }
      assert stopped == set k | k in all && k.client == client && k !in refused;
      if Serves(start.engine, start.sessions) { StopsServe(start, stops); }
    }

    /** The engine has come up idle; the active options are handed to it again. */
    method RestartSessions() returns (accepted: bool)
      requires Filled(mTrackingSessions)
      modifies this`engine, this`asked
      ensures State() == Next(old(State()), EngineUp(accepted))
      ensures accepted <==> !RefusedSince(old(asked))
      ensures asked == old(asked) + AskedOnce(old(CallOf(State(), EngineUp(true))), accepted)
    {
      engine, accepted := None, true;
      if mTrackingSessions == map[] {
        return;
      }
      var smallest := SmallestIntervalOptions(None);
      var err := StartTracking(smallest.minInterval);
      accepted := err == SUCCESS;
    }
  }

  // ---------- the adapter over a run ----------

  /** What reaches the adapter. */
  datatype Command =
    | StartCommand(key: SessionKey, hasCallback: bool, options: LocationOptions)
    | UpdateCommand(key: SessionKey, options: LocationOptions)
    | StopCommand(key: SessionKey)
    | ClientGone(client: nat)
    | EngineCameUp

  /** What is answered: an error code or nothing, the sessions of a departing client that stay, or
      nothing at all. */
  datatype Answer = Replied(err: Option<LocationError>) | Stayed(refused: set<SessionKey>) | NoAnswer

  /** What a command and its answer say of the sessions. */
  function After(sessions: Sessions, command: Command, answer: Answer): Sessions {
    match command
    case StartCommand(key, _, options) =>
      if answer == Replied(Some(SUCCESS)) then sessions[key := options] else sessions
    case UpdateCommand(key, options) => if answer == Replied(Some(SUCCESS)) then sessions[key := options] else sessions
    case StopCommand(key) => if answer == Replied(Some(SUCCESS)) then sessions - {key} else sessions
    case ClientGone(client) =>
      sessions - (set k | k in sessions && k.client == client && !(answer.Stayed? && k in answer.refused))
    case EngineCameUp => sessions
  }

  function AfterAll(commands: seq<Command>, answers: seq<Answer>): Sessions
    requires |answers| == |commands|
  {
    if commands == [] then map[]
    else
      var n := |commands| - 1;
      After(AfterAll(commands[..n], answers[..n]), commands[n], answers[n])
  }

  /** The operations that a command amounts to, whatever the engine answered. */
  predicate DoneBy(command: Command, ops: seq<Op>) {
    match command
    case StartCommand(key, hasCallback, options) =>
      |ops| == 1 && ops[0].Start? && ops[0] == Start(key, hasCallback, options, ops[0].accepted)
    case UpdateCommand(key, options) => |ops| == 1 && ops[0].Update? && ops[0] == Update(key, options, ops[0].accepted)
    case StopCommand(key) => |ops| == 1 && ops[0].Stop? && ops[0].key == key
    case ClientGone(client) => forall i :: 0 <= i < |ops| ==> ops[i].Stop? && ops[i].key.client == client
    case EngineCameUp => |ops| == 1 && ops[0].EngineUp?
  }

  ghost predicate Performs(commands: seq<Command>, ops: seq<Op>) {
    if commands == [] then ops == []
    else exists k: nat :: k <= |ops| &&
           Performs(commands[..|commands| - 1], ops[..k]) && DoneBy(commands[|commands| - 1], ops[k..])
  }

  lemma PerformsOneMore(commands: seq<Command>, ops: seq<Op>, command: Command, more: seq<Op>)
    requires Performs(commands, ops) && DoneBy(command, more)
    ensures Performs(commands + [command], ops + more)
  {
    assert (commands + [command])[..|commands|] == commands;
    assert (ops + more)[..|ops|] == ops && (ops + more)[|ops|..] == more;
  }

  /** One command, on an adapter whose sessions are filled. */
  method Perform(adapter: GnssAdapter, command: Command) returns (answer: Answer, ghost ops: seq<Op>)
    requires Filled(adapter.mTrackingSessions)
    modifies adapter
    ensures adapter.State() == Fold(old(adapter.State()), ops) && DoneBy(command, ops)
    ensures adapter.mTrackingSessions == After(old(adapter.mTrackingSessions), command, answer)
  {
    hide Next, Fold, Filled, Serves;
    ghost var before := adapter.State();
    match command {
      case StartCommand(key, hasCallback, options) =>
        var err := adapter.StartTrackingCommand(key, hasCallback, options);
        answer, ops := Replied(Some(err)), [Start(key, hasCallback, options, err == SUCCESS)];
        FoldOne(before, ops[0]);
      case UpdateCommand(key, options) =>
        var err := adapter.UpdateTrackingOptionsCommand(key, options);
        answer, ops := Replied(err), [Update(key, options, err == Some(SUCCESS))];
        FoldOne(before, ops[0]);
      case StopCommand(key) =>
        var err := adapter.StopTrackingCommand(key);
        answer, ops := Replied(err), [Stop(key, err == Some(SUCCESS))];
        FoldOne(before, ops[0]);
      case EngineCameUp =>
        var accepted := adapter.RestartSessions();
        answer, ops := NoAnswer, [EngineUp(accepted)];
        FoldOne(before, ops[0]);
      case ClientGone(client) =>
        var refused, stops := adapter.StopClientSessions(client);
        answer, ops := Stayed(refused), stops;
    }
  }

  /** The adapter run over any commands is in the state of a run of their operations, so the engine is
      right if and only if it is not stranded; and its sessions are those that the commands and their
      answers say. */
  method RunAdapter(commands: seq<Command>)
    returns (adapter: GnssAdapter, answers: seq<Answer>, ghost ops: seq<Op>)
    ensures fresh(adapter) && Performs(commands, ops)
    ensures adapter.State() == Run(ops) && Filled(adapter.mTrackingSessions)
    ensures |answers| == |commands| && adapter.mTrackingSessions == AfterAll(commands, answers)
    ensures FreshKeys(ops) ==> (Serves(adapter.engine, adapter.mTrackingSessions) <==> !Stranded(ops))
  {
    hide Performs, DoneBy, Fold, Serves, Stranded, FreshKeys, After;
    adapter := new GnssAdapter();
    answers, ops := [], [];
    NothingPerformed();
    for i := 0 to |commands|
      invariant fresh(adapter) && Performs(commands[..i], ops) && adapter.State() == Run(ops)
      invariant |answers| == i && adapter.mTrackingSessions == AfterAll(commands[..i], answers)
    {
      StaysFilled(ops);
      var answer, more := Perform(adapter, commands[i]);
      assert commands[..i + 1][..i] == commands[..i] && (answers + [answer])[..i] == answers;
      RunsOn(IDLE, ops, more);
      PerformsOneMore(commands[..i], ops, commands[i], more);
      assert commands[..i + 1] == commands[..i] + [commands[i]];
      answers, ops := answers + [answer], ops + more;
    }
    assert commands[..|commands|] == commands;
    StaysFilled(ops);
    if FreshKeys(ops) { EngineRunsAtMinimumIff(ops); }
  }

  lemma NothingPerformed()
    ensures Performs([], []) && Run([]) == IDLE
  {
  }

  lemma SeenOneMore(others: Sessions, seen: Sessions, rest: set<SessionKey>, k: SessionKey)
    requires k in rest && seen == others - rest
    ensures others - (rest - {k}) == if k in others then seen[k := others[k]] else seen
  {
  }

  /** The running result of the smallest-interval loop. */
  ghost predicate IsSmallestOf(smallest: LocationOptions, seen: Sessions) {
    if smallest.size == 0 then smallest == LocationOptions(0, 0) && seen == map[]
    else IsMin(seen, smallest.minInterval)
  }

  lemma NothingSeen()
    ensures IsSmallestOf(LocationOptions(0, 0), map[])
  {
  }

  lemma SmallestDone(smallest: LocationOptions, seen: Sessions)
    requires IsSmallestOf(smallest, seen)
    ensures if seen == map[] then smallest == LocationOptions(0, 0)
            else smallest.size != 0 && smallest.minInterval == MinOf(seen)
  {
    if seen != map[] { MinIsUnique(seen, Some(smallest.minInterval), Some(MinOf(seen))); }
  }

  lemma MinusOneMore(sessions: Sessions, gone: set<SessionKey>, k: SessionKey)
    ensures (sessions - gone) - {k} == sessions - (gone + {k})
  {
  }

  lemma SmallestWith(smallest: LocationOptions, seen: Sessions, k: SessionKey, options: LocationOptions)
    requires IsSmallestOf(smallest, seen) && k !in seen && options.size != 0
    ensures IsSmallestOf(if smallest.size == 0 || options.minInterval < smallest.minInterval then options else smallest,
                         seen[k := options])
  {
    assert seen[k := options][k] == options;
    assert seen[k := options] - {k} == seen;
    if smallest.size != 0 { MinWith(seen[k := options], k, options, smallest.minInterval); }
  }
}
