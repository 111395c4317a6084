/**
 Claiming messages for classification (db/store.go, `ClaimMessages`, `ReleaseClaim`,
 `BatchInsertProcessingResults`; db/fake.go for the in-memory twin).
 */
module ClaimProtocol {
  // Each message has at most one marker: a lease until some second, or a confirmation. Any
  // number of invocations read the clock, try conditional writes one message at a time, confirm,
  // release, lose a write, or crash, in any order. `SafeExactly` says for which working windows
  // (how long after its clock reading an invocation may still act on a claim) no message ever has
  // two owners: up to the 900 seconds of the lease against the real table, and one second less
  // against the in-memory one, whose claim condition differs at the very second of expiry.

  const LEASE := 900

  datatype Marker = Lease(exp: int) | Confirmed
  type Markers = map<string, Marker>

  /** The DynamoDB table reclaims strictly after expiry, the in-memory store at expiry. */
  datatype Backend = Dynamo | Memory

  predicate Winnable(backend: Backend, markers: Markers, msg: string, reading: int) {
    || msg !in markers
    || (markers[msg].Lease? && (if backend == Dynamo then markers[msg].exp < reading else markers[msg].exp <= reading))
  }

  predicate Unprocessed(markers: Markers, msg: string, reading: int) {
    msg !in markers || (markers[msg].Lease? && markers[msg].exp <= reading)
  }

  function Put(backend: Backend, markers: Markers, msg: string, reading: int): Markers {
    if Winnable(backend, markers, msg, reading) then markers[msg := Lease(reading + LEASE)] else markers
  }

  function Released(markers: Markers, msg: string): Markers {
    if msg in markers && markers[msg].Lease? then markers - {msg} else markers
  }

  // ---------------------------------------------------------------- the protocol

  datatype Claim = Claim(owner: nat, msg: string)

  /** `readings`: the clock reading of each invocation's current claim call. `held`: the claims
      invocations believe they own, each with the reading it was won at. */
  datatype State = State(now: int, markers: Markers, readings: map<nat, int>, held: map<Claim, int>)

  datatype Step =
    | Tick(seconds: nat)
    | ReadClock(owner: nat)
    | TryClaim(claim: Claim)
    | Confirm(claim: Claim)
    | Release(claim: Claim)
    | Lose(claim: Claim)
    | Crash(owner: nat)

  /** `window`: how many seconds after its reading an invocation may still act on a claim. */
  datatype Config = Config(backend: Backend, window: int)

  function Init(now: int): State {
    State(now, map[], map[], map[])
  }

  predicate Live(cfg: Config, s: State, c: Claim) {
    c in s.held && s.now <= s.held[c] + cfg.window
  }

  predicate Enabled(cfg: Config, s: State, step: Step) {
    match step
    case TryClaim(c) => c.owner in s.readings
    case Confirm(c) => Live(cfg, s, c)
    case Release(c) => Live(cfg, s, c)
    case _ => true
  }

  /** `Lose` stands for a confirm or release whose write failed: the code logs it and moves on. */
  function Next(cfg: Config, s: State, step: Step): State
    requires Enabled(cfg, s, step)
  {
    match step
    case Tick(seconds) => s.(now := s.now + seconds)
    case ReadClock(i) => s.(readings := s.readings[i := s.now])
    case TryClaim(c) =>
      var reading := s.readings[c.owner];
      if Winnable(cfg.backend, s.markers, c.msg, reading)
      then s.(markers := Put(cfg.backend, s.markers, c.msg, reading), held := s.held[c := reading])
      else s
    case Confirm(c) => s.(markers := s.markers[c.msg := Confirmed], held := s.held - {c})
    case Release(c) => s.(markers := Released(s.markers, c.msg), held := s.held - {c})
    case Lose(c) => s.(held := s.held - {c})
    case Crash(i) => s.(readings := s.readings - {i}, held := map c | c in s.held && c.owner != i :: s.held[c])
  }

  predicate Runs(cfg: Config, s: State, steps: seq<Step>)
    decreases |steps|
  {
    steps == [] || (Enabled(cfg, s, steps[0]) && Runs(cfg, Next(cfg, s, steps[0]), steps[1..]))
  }

  function After(cfg: Config, s: State, steps: seq<Step>): State
    requires Runs(cfg, s, steps)
    decreases |steps|
  {
    if steps == [] then s else After(cfg, Next(cfg, s, steps[0]), steps[1..])
  }

  // ---------------------------------------------------------------- the invariant

  ghost predicate SoleOwners(cfg: Config, s: State) {
    forall c, d | Live(cfg, s, c) && Live(cfg, s, d) && c.msg == d.msg :: c == d
  }

  predicate Backed(cfg: Config, s: State, c: Claim)
    requires c in s.held
  {
    && s.held[c] <= s.now
    && (Live(cfg, s, c) ==> c.msg in s.markers && s.markers[c.msg] == Lease(s.held[c] + LEASE))
  }

  ghost predicate Inv(cfg: Config, s: State) {
    && (forall i | i in s.readings :: s.readings[i] <= s.now)
    && (forall m | m in s.markers && s.markers[m].Lease? :: s.markers[m].exp <= s.now + LEASE)
    && (forall c | c in s.held :: Backed(cfg, s, c))
    && SoleOwners(cfg, s)
  }

  /** The longest working window that is safe. */
  function LongestWindow(backend: Backend): int {
    if backend == Dynamo then LEASE else LEASE - 1
  }

  lemma TryClaimKeepsInv(cfg: Config, s: State, c: Claim)
    requires cfg.window <= LongestWindow(cfg.backend)
    requires Inv(cfg, s) && c.owner in s.readings
    ensures Inv(cfg, Next(cfg, s, TryClaim(c)))
  {
    var reading := s.readings[c.owner];
    var t := Next(cfg, s, TryClaim(c));
    if Winnable(cfg.backend, s.markers, c.msg, reading) {
      forall d | d in t.held ensures Backed(cfg, t, d) && (d != c && Live(cfg, t, d) ==> d.msg != c.msg) {
        if d != c {
          assert Backed(cfg, s, d);
        }
      }
    }
  }

  lemma ActKeepsInv(cfg: Config, s: State, c: Claim, step: Step)
    requires cfg.window <= LongestWindow(cfg.backend)
    requires Inv(cfg, s) && Live(cfg, s, c) && (step == Confirm(c) || step == Release(c))
    ensures Inv(cfg, Next(cfg, s, step))
  {
    var t := Next(cfg, s, step);
    forall d | d in t.held ensures Backed(cfg, t, d) {
      assert Backed(cfg, s, d);
      assert Live(cfg, t, d) ==> Live(cfg, s, d);
    }
    forall d, e | Live(cfg, t, d) && Live(cfg, t, e) && d.msg == e.msg ensures d == e {
      assert Live(cfg, s, d) && Live(cfg, s, e);
    }
  }

  lemma ForgetKeepsInv(cfg: Config, s: State, t: State)
    requires Inv(cfg, s)
    requires s.now <= t.now && t.markers == s.markers
    requires forall i | i in t.readings :: t.readings[i] <= t.now
    requires forall c | c in t.held :: c in s.held && t.held[c] == s.held[c]
    ensures Inv(cfg, t)
  {
    forall c | c in t.held ensures Backed(cfg, t, c) {
      assert Backed(cfg, s, c);
    }
    forall d, e | Live(cfg, t, d) && Live(cfg, t, e) && d.msg == e.msg ensures d == e {
      assert Live(cfg, s, d) && Live(cfg, s, e);
    }
  }

  lemma StepKeepsInv(cfg: Config, s: State, step: Step)
    requires cfg.window <= LongestWindow(cfg.backend)
    requires Inv(cfg, s) && Enabled(cfg, s, step)
    ensures Inv(cfg, Next(cfg, s, step))
  {
    match step
    case TryClaim(c) => TryClaimKeepsInv(cfg, s, c);
    case Confirm(c) => ActKeepsInv(cfg, s, c, step);
    case Release(c) => ActKeepsInv(cfg, s, c, step);
    case _ => ForgetKeepsInv(cfg, s, Next(cfg, s, step));
  }

  lemma {:induction false} RunKeepsInv(cfg: Config, s: State, steps: seq<Step>)
    requires cfg.window <= LongestWindow(cfg.backend)
    requires Inv(cfg, s) && Runs(cfg, s, steps)
    ensures Inv(cfg, After(cfg, s, steps))
    decreases |steps|
  {
    if steps != [] {
      StepKeepsInv(cfg, s, steps[0]);
      RunKeepsInv(cfg, Next(cfg, s, steps[0]), steps[1..]);
    }
  }

  // ---------------------------------------------------------------- safety, exactly

  ghost predicate Safe(cfg: Config) {
    forall now: int, steps: seq<Step> | Runs(cfg, Init(now), steps) :: SoleOwners(cfg, After(cfg, Init(now), steps))
  }

  /** Invocation 0 claims; the lease runs out; invocation 1 claims while 0 may still act. */
  function Overlap(backend: Backend): seq<Step> {
    [ReadClock(0), TryClaim(Claim(0, "m")), Tick(LongestWindow(backend) + 1),
     ReadClock(1), TryClaim(Claim(1, "m"))]
  }

  lemma RunOne(cfg: Config, s: State, steps: seq<Step>)
    requires steps != [] && Enabled(cfg, s, steps[0])
    ensures Runs(cfg, s, steps) == Runs(cfg, Next(cfg, s, steps[0]), steps[1..])
    ensures Runs(cfg, s, steps) ==> After(cfg, s, steps) == After(cfg, Next(cfg, s, steps[0]), steps[1..])
  {
  }

  function Overlapped(backend: Backend): State {
    var late := LongestWindow(backend) + 1;
    State(late, map["m" := Lease(late + LEASE)], map[0 := 0, 1 := late],
          map[Claim(0, "m") := 0, Claim(1, "m") := late])
  }

  lemma OverlapRuns(cfg: Config)
    ensures Runs(cfg, Init(0), Overlap(cfg.backend))
    ensures After(cfg, Init(0), Overlap(cfg.backend)) == Overlapped(cfg.backend)
  {
    var steps := Overlap(cfg.backend);
    var late := LongestWindow(cfg.backend) + 1;
    var s1 := State(0, map[], map[0 := 0], map[]);
    var s2 := State(0, map["m" := Lease(LEASE)], map[0 := 0], map[Claim(0, "m") := 0]);
    var s3 := s2.(now := late);
    var s4 := s3.(readings := map[0 := 0, 1 := late]);
    var s5 := Overlapped(cfg.backend);
    assert Next(cfg, Init(0), steps[0]) == s1;
    assert Next(cfg, s1, steps[1]) == s2;
    assert Next(cfg, s2, steps[2]) == s3;
    assert Next(cfg, s3, steps[3]) == s4;
    assert Next(cfg, s4, steps[4]) == s5;
    RunOne(cfg, s4, steps[4..]);
    RunOne(cfg, s3, steps[3..]);
    RunOne(cfg, s2, steps[2..]);
    RunOne(cfg, s1, steps[1..]);
    assert steps[1..][1..] == steps[2..] && steps[2..][1..] == steps[3..] && steps[3..][1..] == steps[4..];
  }

  /** Over every run of every set of invocations, no message has two owners that may still act
      on it, exactly when the working window stays within the lease. */
  lemma SafeExactly(cfg: Config)
    ensures Safe(cfg) <==> cfg.window <= LongestWindow(cfg.backend)
    ensures LongestWindow(Dynamo) == 900 && LongestWindow(Memory) == 899
  {
    if cfg.window <= LongestWindow(cfg.backend) {
      forall now: int, steps: seq<Step> | Runs(cfg, Init(now), steps)
        ensures SoleOwners(cfg, After(cfg, Init(now), steps))
      {
        RunKeepsInv(cfg, Init(now), steps);
      }
    } else {
      OverlapRuns(cfg);
      var s := After(cfg, Init(0), Overlap(cfg.backend));
      assert Live(cfg, s, Claim(0, "m")) && Live(cfg, s, Claim(1, "m"));
      assert !SoleOwners(cfg, s);
    }
  }

  // ---------------------------------------------------------------- confirmation

  predicate IsConfirmed(s: State, m: string) {
    m in s.markers && s.markers[m] == Confirmed
  }

  /** Whatever the window, a confirmed marker is never removed, replaced or won again. */
  lemma {:induction false} ConfirmedForever(cfg: Config, s: State, steps: seq<Step>, c: Claim)
    requires Runs(cfg, s, steps) && IsConfirmed(s, c.msg)
    ensures IsConfirmed(After(cfg, s, steps), c.msg)
    ensures c !in s.held ==> c !in After(cfg, s, steps).held
    decreases |steps|
  {
    if steps != [] {
      ConfirmedForever(cfg, Next(cfg, s, steps[0]), steps[1..], c);
    }
  }

  predicate Confirms(step: Step, m: string) {
    step.Confirm? && step.claim.msg == m
  }

  function Confirmations(steps: seq<Step>, m: string): nat {
    if steps == [] then 0 else (if Confirms(steps[0], m) then 1 else 0) + Confirmations(steps[1..], m)
  }

  lemma {:induction false} NoneOnceConfirmed(cfg: Config, s: State, steps: seq<Step>, m: string)
    requires cfg.window <= LongestWindow(cfg.backend)
    requires Inv(cfg, s) && Runs(cfg, s, steps) && IsConfirmed(s, m)
    ensures Confirmations(steps, m) == 0
    decreases |steps|
  {
    if steps != [] {
      StepKeepsInv(cfg, s, steps[0]);
      if Confirms(steps[0], m) {
        assert false;
      }
      NoneOnceConfirmed(cfg, Next(cfg, s, steps[0]), steps[1..], m);
    }
  }

  lemma {:induction false} OnceFrom(cfg: Config, s: State, steps: seq<Step>, m: string)
    requires cfg.window <= LongestWindow(cfg.backend)
    requires Inv(cfg, s) && Runs(cfg, s, steps)
    ensures Confirmations(steps, m) <= 1
    ensures IsConfirmed(After(cfg, s, steps), m) <==> IsConfirmed(s, m) || Confirmations(steps, m) == 1
    decreases |steps|
  {
    if steps != [] {
      StepKeepsInv(cfg, s, steps[0]);
      var t := Next(cfg, s, steps[0]);
      OnceFrom(cfg, t, steps[1..], m);
      if Confirms(steps[0], m) {
        NoneOnceConfirmed(cfg, t, steps[1..], m);
      } else if IsConfirmed(s, m) {
        NoneOnceConfirmed(cfg, s, steps, m);
      }
    }
  }

  /** In every run each message is confirmed at most once, and its marker ends confirmed exactly
      when some step of the run confirmed it. */
  lemma ConfirmedAtMostOnce(cfg: Config, now: int, steps: seq<Step>, m: string)
    requires cfg.window <= LongestWindow(cfg.backend)
    requires Runs(cfg, Init(now), steps)
    ensures Confirmations(steps, m) <= 1
    ensures IsConfirmed(After(cfg, Init(now), steps), m) <==> Confirmations(steps, m) == 1
  {
    OnceFrom(cfg, Init(now), steps, m);
  }

  // ---------------------------------------------------------------- release and recovery

  /** After any run, a release takes away the releaser's own lease and nobody else's claim, and
      the message can be won at once by any invocation. */
  lemma ReleaseIsOwn(cfg: Config, now: int, steps: seq<Step>, c: Claim, other: Claim, reading: int)
    requires cfg.window <= LongestWindow(cfg.backend)
    requires Runs(cfg, Init(now), steps)
    requires Enabled(cfg, After(cfg, Init(now), steps), Release(c))
    ensures var s := After(cfg, Init(now), steps);
            var t := Next(cfg, s, Release(c));
            && c.msg in s.markers && s.markers[c.msg] == Lease(s.held[c] + LEASE)
            && t.markers == s.markers - {c.msg}
            && (other != c ==> (Live(cfg, t, other) <==> Live(cfg, s, other)))
            && (Live(cfg, t, other) ==> other.msg in t.markers && other.msg != c.msg)
            && Winnable(cfg.backend, t.markers, c.msg, reading)
  {
    RunKeepsInv(cfg, Init(now), steps);
    var s := After(cfg, Init(now), steps);
    assert Backed(cfg, s, c);
    if other in s.held {
      assert Backed(cfg, s, other);
    }
  }

  /** Whatever crashed or was lost on the way, an unconfirmed message can be claimed by any
      invocation once a lease's time has gone by. */
  lemma CrashRecovers(cfg: Config, now: int, steps: seq<Step>, c: Claim, wait: nat)
    requires 0 <= cfg.window <= LongestWindow(cfg.backend)
    requires Runs(cfg, Init(now), steps)
    requires 900 < wait && !IsConfirmed(After(cfg, Init(now), steps), c.msg)
    ensures var s := After(cfg, Init(now), steps);
            var again := [Tick(wait), ReadClock(c.owner), TryClaim(c)];
            && Runs(cfg, s, again)
            && Live(cfg, After(cfg, s, again), c)
            && After(cfg, s, again).markers[c.msg := Confirmed] == s.markers[c.msg := Confirmed]
  {
    RunKeepsInv(cfg, Init(now), steps);
    var s := After(cfg, Init(now), steps);
    var again := [Tick(wait), ReadClock(c.owner), TryClaim(c)];
    var s1 := Next(cfg, s, again[0]);
    var s2 := Next(cfg, s1, again[1]);
    var s3 := Next(cfg, s2, again[2]);
    assert again[1..][1..] == again[2..];
    RunOne(cfg, s2, again[2..]);
    RunOne(cfg, s1, again[1..]);
    RunOne(cfg, s, again);
    assert Winnable(cfg.backend, s2.markers, c.msg, s2.now);
    assert s3.markers[c.msg := Confirmed] == s.markers[c.msg := Confirmed];
  }
}
