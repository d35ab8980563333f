// The trust store shared by competing processes: every step of install and recover is an
// action of its own, any process may crash between any two of them, and the file may be
// damaged from outside.
module TrustStoreProcesses {
  import opened Common
  import opened TrustBundles
  import opened TrustStore

  datatype Op =
    | Install(bundle: TrustBundle, expected: Option<int>)
    | Recover(bundle: TrustBundle, minimum: int)

  // What a call that loaded `seen` goes on to write, if anything.
  ghost function ToWrite(op: Op, seen: File): Option<File> {
    if op.bundle.version < 0 then None
    else
      match op
      case Install(b, expected) =>
        if Load(seen) == Corrupt then None
        else
          var d := InstallDecision(Current(seen), b, expected);
          if d.Commit? then Some(Committed(b, d.highWater)) else None
      case Recover(b, minimum) =>
        Some(Committed(b, RecoveredHighWater(Current(seen), b, minimum)))
  }

  // Between calls; holding the lock; having loaded; having written the temporary file; about
  // to give the lock back; dead, with the lock file left behind or not.
  datatype Process =
    | Idle
    | Entered(op: Op)
    | Loaded(op: Op, seen: File)
    | Prepared(op: Op, seen: File, next: File)
    | Leaving
    | Dead(lockLeft: bool)

  // `abandoned` is history: some acquisition created the lock file and then raised, before the
  // call's own try could give it back, or some release raised before it had removed the file.
  datatype Sys = Sys(lock: bool, file: File, procs: seq<Process>, abandoned: bool)

  datatype Act =
    | Enter(p: nat, op: Op) | LoadIt(p: nat) | Decide(p: nat) | Replace(p: nat) | Leave(p: nat)
    | EnterFails(p: nat)  // writing or syncing the fresh lock file raises
    | Fail(p: nat)        // reading, writing or replacing a file raises
    | LeaveFails(p: nat)  // closing or unlinking the lock file raises
    | Crash(p: nat) | Damage(to: File)

  predicate HoldsLock(p: Process) {
    !p.Idle? && p != Dead(false)
  }

  predicate Begin(s: Sys) {
    !s.lock && !s.abandoned && forall p :: 0 <= p < |s.procs| ==> s.procs[p] == Idle
  }

  ghost predicate Enabled(s: Sys, a: Act) {
    match a
    case Enter(p, op) => p < |s.procs| && s.procs[p].Idle? && !s.lock
    case LoadIt(p) => p < |s.procs| && s.procs[p].Entered?
    case Decide(p) => p < |s.procs| && s.procs[p].Loaded?
    case Replace(p) => p < |s.procs| && s.procs[p].Prepared?
    case Leave(p) => p < |s.procs| && s.procs[p].Leaving?
    case EnterFails(p) => p < |s.procs| && s.procs[p].Idle? && !s.lock
    case Fail(p) => p < |s.procs| && (s.procs[p].Entered? || s.procs[p].Loaded? || s.procs[p].Prepared?)
    case LeaveFails(p) => p < |s.procs| && s.procs[p].Leaving?
    case Crash(p) => p < |s.procs| && !s.procs[p].Dead?
    case Damage(to) => !Load(to).Found?
  }

  ghost function Apply(s: Sys, a: Act): Sys
    requires Enabled(s, a)
  {
    match a
    case Enter(p, op) => s.(lock := true, procs := s.procs[p := Entered(op)])
    case LoadIt(p) => s.(procs := s.procs[p := Loaded(s.procs[p].op, s.file)])
    case Decide(p) =>
      var op, seen := s.procs[p].op, s.procs[p].seen;
      var w := ToWrite(op, seen);
      s.(procs := s.procs[p := if w.Some? then Prepared(op, seen, w.value) else Leaving])
    case Replace(p) => s.(file := s.procs[p].next, procs := s.procs[p := Leaving])
    case Leave(p) => s.(lock := false, procs := s.procs[p := Idle])
    case EnterFails(p) => s.(lock := true, abandoned := true)
    case Fail(p) => s.(procs := s.procs[p := Leaving])
    case LeaveFails(p) => s.(abandoned := true, procs := s.procs[p := Idle])
    case Crash(p) => s.(procs := s.procs[p := Dead(HoldsLock(s.procs[p]))])
    case Damage(to) => s.(file := to)
  }

  ghost predicate IsRun(states: seq<Sys>, acts: seq<Act>) {
    && |states| == |acts| + 1
    && Begin(states[0])
    && forall k: nat :: k < |acts| ==> Taken(states, acts, k)
  }

  ghost predicate Taken(states: seq<Sys>, acts: seq<Act>, k: nat)
    requires k < |acts| < |states|
  {
    Enabled(states[k], acts[k]) && states[k + 1] == Apply(states[k], acts[k])
  }

  // ---- what every step keeps ----

  ghost predicate Inv(s: Sys) {
    && (forall p, q :: 0 <= p < |s.procs| && 0 <= q < |s.procs| && HoldsLock(s.procs[p]) && HoldsLock(s.procs[q]) ==>
        p == q)
    && (forall p :: 0 <= p < |s.procs| && HoldsLock(s.procs[p]) ==> s.lock && !s.abandoned)
    && (s.abandoned ==> s.lock)
    && (forall p :: 0 <= p < |s.procs| && (s.procs[p].Loaded? || s.procs[p].Prepared?) && Load(s.file).Found? ==>
          s.file == s.procs[p].seen)
    && (forall p :: 0 <= p < |s.procs| && s.procs[p].Prepared? ==>
          ToWrite(s.procs[p].op, s.procs[p].seen) == Some(s.procs[p].next))
  }

  lemma StepKeepsInv(s: Sys, a: Act)
    requires Inv(s) && Enabled(s, a)
    ensures Inv(Apply(s, a))
  {
    hide Load, ToWrite;
    if a.Damage? {
      NotFound(a.to);
    }
  }

  lemma NotFound(f: File)
    ensures Load(f) == Nothing || Load(f) == Corrupt || Load(f).Found?
  {
  }

  // ---- the high-water mark ----

  ghost predicate Good(f: File) {
    Load(f).Found?
  }

  ghost function Version(f: File): int
    requires Good(f)
  {
    Load(f).stored.bundle.version
  }

  ghost function HighWater(f: File): int
    requires Good(f)
  {
    Load(f).stored.highWater
  }

  lemma LoadedIsSound(f: File)
    requires Good(f)
    ensures 0 <= Version(f) <= HighWater(f)
  {
  }

  // A write never lowers the high-water mark; an install over a good file raises the version.
  lemma WriteRaises(op: Op, seen: File, next: File)
    requires ToWrite(op, seen) == Some(next) && Good(next)
    ensures Version(next) == op.bundle.version
    ensures Good(seen) ==> HighWater(next) >= HighWater(seen)
    ensures op.Install? && Good(seen) ==> Version(next) > Version(seen) && HighWater(next) == Version(next)
    ensures op.Install? ==> Load(seen) != Corrupt
  {
    match op
    case Install(b, expected) => InstallRaises(op, seen);
    case Recover(b, minimum) => RecoverRaises(op, seen);
  }

  lemma InstallRaises(op: Op, seen: File)
    ensures op.Install? && ToWrite(op, seen).Some? && Good(ToWrite(op, seen).value) ==>
              var next := ToWrite(op, seen).value;
              && Version(next) == op.bundle.version && Load(seen) != Corrupt
              && (Good(seen) ==>
                    && Version(next) > Version(seen)
                    && HighWater(next) == Version(next) && HighWater(next) >= HighWater(seen))
  {
    if op.Install? && ToWrite(op, seen).Some? {
      if Good(seen) {
        LoadedIsSound(seen);
      }
      var d := InstallDecision(Current(seen), op.bundle, op.expected);
      CommitLoadable(op.bundle, d.highWater);
      hide Committed, Canonical, StateSize, Acceptable;
    }
  }

  lemma RecoverRaises(op: Op, seen: File)
    requires op.Recover? && ToWrite(op, seen).Some? && Good(ToWrite(op, seen).value)
    ensures var next := ToWrite(op, seen).value;
            Version(next) == op.bundle.version && (Good(seen) ==> HighWater(next) >= HighWater(seen))
  {
    CommitLoadable(op.bundle, RecoveredHighWater(Current(seen), op.bundle, op.minimum));
    hide Committed, Canonical, StateSize, Acceptable;
  }

  lemma StepRaises(s: Sys, a: Act)
    requires Inv(s) && Enabled(s, a)
    ensures Good(s.file) && Good(Apply(s, a).file) ==> HighWater(s.file) <= HighWater(Apply(s, a).file)
  {
    hide Load;
    if a.Replace? && Good(s.file) && Good(Apply(s, a).file) {
      WriteRaises(s.procs[a.p].op, s.procs[a.p].seen, s.procs[a.p].next);
    }
  }

  lemma {:induction false} RunKeepsInv(states: seq<Sys>, acts: seq<Act>, k: nat)
    requires IsRun(states, acts) && k < |states|
    ensures Inv(states[k])
  {
    if k > 0 {
      RunKeepsInv(states, acts, k - 1);
      assert Taken(states, acts, k - 1);
      StepKeepsInv(states[k - 1], acts[k - 1]);
    }
  }

  lemma RunRaises(states: seq<Sys>, acts: seq<Act>, k: nat)
    requires IsRun(states, acts) && k < |acts|
    requires Good(states[k].file) && Good(states[k + 1].file)
    ensures HighWater(states[k].file) <= HighWater(states[k + 1].file)
  {
    RunKeepsInv(states, acts, k);
    assert Taken(states, acts, k);
    hide Load, Inv, Apply;
    StepRaises(states[k], acts[k]);
  }

  // Over states i to j the store stayed loadable.
  ghost predicate StaysGood(states: seq<Sys>, i: nat, j: nat)
    requires i <= j < |states|
  {
    Good(states[j].file) && (i < j ==> StaysGood(states, i, j - 1))
  }

  lemma {:induction false} MarkRises(states: seq<Sys>, acts: seq<Act>, i: nat, j: nat)
    requires IsRun(states, acts) && i <= j < |states| && StaysGood(states, i, j)
    ensures Good(states[i].file) && Good(states[j].file)
    ensures HighWater(states[i].file) <= HighWater(states[j].file)
  {
    hide IsRun, Load, HighWater;
    if i < j {
      MarkRises(states, acts, i, j - 1);
      hide StaysGood, Good;
      RunLength(states, acts);
      RunRaises(states, acts, j - 1);
    }
  }

  lemma RunLength(states: seq<Sys>, acts: seq<Act>)
    requires IsRun(states, acts)
    ensures |states| == |acts| + 1
  {
  }

  // With any number of processes, crashes anywhere and recoveries: as long as the store stays
  // loadable its high-water mark never goes down, and it always covers the version.
  lemma HighWaterNeverDrops(states: seq<Sys>, acts: seq<Act>, i: nat, j: nat)
    requires IsRun(states, acts) && i <= j < |states| && StaysGood(states, i, j)
    ensures Good(states[i].file) && Good(states[j].file)
    ensures HighWater(states[i].file) <= HighWater(states[j].file)
    ensures 0 <= Version(states[j].file) <= HighWater(states[j].file)
  {
    MarkRises(states, acts, i, j);
    LoadedIsSound(states[j].file);
  }

  // ---- runs without outside damage ----

  ghost predicate Undamaged(acts: seq<Act>) {
    forall k :: 0 <= k < |acts| ==> !acts[k].Damage?
  }

  ghost predicate SeesFile(s: Sys) {
    forall p :: 0 <= p < |s.procs| && (s.procs[p].Loaded? || s.procs[p].Prepared?) ==> s.procs[p].seen == s.file
  }

  lemma TenureStep(s: Sys, a: Act)
    requires Inv(s) && SeesFile(s) && Enabled(s, a) && !a.Damage?
    ensures SeesFile(Apply(s, a))
  {
    hide Load, ToWrite;
    if a.Replace? {
      assert HoldsLock(s.procs[a.p]);
      forall q | 0 <= q < |s.procs| && (s.procs[q].Loaded? || s.procs[q].Prepared?) ensures q == a.p {
        assert HoldsLock(s.procs[q]);
      }
    }
  }

  lemma {:induction false} TenureIsExclusive(states: seq<Sys>, acts: seq<Act>, k: nat)
    requires IsRun(states, acts) && Undamaged(acts) && k < |states|
    ensures SeesFile(states[k])
  {
    if k > 0 {
      RunTaken(states, acts, k - 1);
      assert !acts[k - 1].Damage?;
      hide *;
      TenureIsExclusive(states, acts, k - 1);
      RunKeepsInv(states, acts, k - 1);
      TenureStep(states[k - 1], acts[k - 1]);
    }
  }

  lemma RunTaken(states: seq<Sys>, acts: seq<Act>, k: nat)
    requires IsRun(states, acts) && k < |states| - 1
    ensures |states| == |acts| + 1 && Enabled(states[k], acts[k]) && states[k + 1] == Apply(states[k], acts[k])
  {
    assert Taken(states, acts, k);
    hide Enabled, Apply;
  }

  // A commit is all or nothing: whatever happens next, crashes included, a load gives the
  // state the writer had loaded or the one it was writing.
  lemma CommitIsAtomic(states: seq<Sys>, acts: seq<Act>, k: nat, p: nat)
    requires IsRun(states, acts) && Undamaged(acts) && k < |acts|
    requires p < |states[k].procs| && states[k].procs[p].Prepared?
    ensures var w := states[k].procs[p];
            states[k].file == w.seen
            && (states[k + 1].file == if acts[k] == Replace(p) then w.next else w.seen)
  {
    TenureIsExclusive(states, acts, k);
    RunKeepsInv(states, acts, k);
    assert Taken(states, acts, k);
    hide Load, ToWrite;
    assert HoldsLock(states[k].procs[p]);
    if acts[k].Replace? {
      assert HoldsLock(states[k].procs[acts[k].p]);
    }
  }

  // ---- runs of installs alone ----

  ghost predicate InstallsOnly(acts: seq<Act>) {
    Undamaged(acts) && forall k :: 0 <= k < |acts| && acts[k].Enter? ==> acts[k].op.Install?
  }

  ghost predicate OpsInstall(s: Sys) {
    forall p :: 0 <= p < |s.procs| ==>
      match s.procs[p]
      case Entered(op) => op.Install?
      case Loaded(op, _) => op.Install?
      case Prepared(op, _, _) => op.Install?
      case _ => true
  }

  lemma {:induction false} OnlyInstallsRun(states: seq<Sys>, acts: seq<Act>, k: nat)
    requires IsRun(states, acts) && InstallsOnly(acts) && k < |states|
    ensures OpsInstall(states[k])
  {
    if k > 0 {
      OnlyInstallsRun(states, acts, k - 1);
      assert Taken(states, acts, k - 1);
    }
  }

  // How the file may have moved between two moments of such a run.
  ghost predicate MovedOn(f: File, g: File) {
    || f == g
    || (Load(f) == Nothing && Load(g) != Nothing)
    || (Good(f) && (Load(g) == Corrupt || (Good(g) && Version(f) < Version(g))))
  }

  lemma InstallMoves(op: Op, seen: File, next: File)
    ensures op.Install? && ToWrite(op, seen) == Some(next) ==> MovedOn(seen, next)
  {
    if op.Install? && ToWrite(op, seen) == Some(next) && Good(next) {
      WriteRaises(op, seen, next);
    }
  }

  lemma InstallStep(s: Sys, a: Act)
    requires SeesFile(s) && Inv(s) && OpsInstall(s) && Enabled(s, a) && !a.Damage?
    ensures MovedOn(s.file, Apply(s, a).file)
  {
    if a.Replace? {
      InstallMoves(s.procs[a.p].op, s.procs[a.p].seen, s.procs[a.p].next);
    } else {
      MovesNowhere(s.file);
    }
    hide MovedOn, Load, ToWrite;
  }

  lemma RunMoves(states: seq<Sys>, acts: seq<Act>, k: nat)
    requires IsRun(states, acts) && InstallsOnly(acts) && k < |acts|
    ensures MovedOn(states[k].file, states[k + 1].file)
  {
    TenureIsExclusive(states, acts, k);
    RunKeepsInv(states, acts, k);
    OnlyInstallsRun(states, acts, k);
    assert Taken(states, acts, k);
    hide MovedOn, SeesFile, Inv, OpsInstall, Enabled, Apply;
    InstallStep(states[k], acts[k]);
  }

  lemma {:induction false} InstallsMoveOn(states: seq<Sys>, acts: seq<Act>, i: nat, j: nat)
    requires IsRun(states, acts) && InstallsOnly(acts) && i <= j < |states|
    ensures MovedOn(states[i].file, states[j].file)
  {
    RunLength(states, acts);
    hide *;
    if i == j {
      MovesNowhere(states[i].file);
    } else {
      InstallsMoveOn(states, acts, i, j - 1);
      RunMoves(states, acts, j - 1);
      MovesCompose(states[i].file, states[j - 1].file, states[j].file);
    }
  }

  lemma MovesNowhere(f: File)
    ensures MovedOn(f, f)
  {
  }

  lemma MovesCompose(f: File, g: File, h: File)
    requires MovedOn(f, g) && MovedOn(g, h)
    ensures MovedOn(f, h)
  {
  }

  // Under installs alone the version never goes down, and one version number never stands for
  // two contents, over all processes and crashes.
  lemma VersionsNeverReused(states: seq<Sys>, acts: seq<Act>, i: nat, j: nat)
    requires IsRun(states, acts) && InstallsOnly(acts) && i <= j < |states|
    requires Good(states[i].file) && Good(states[j].file)
    ensures Version(states[i].file) <= Version(states[j].file)
    ensures Version(states[i].file) == Version(states[j].file) ==> states[i].file == states[j].file
  {
    InstallsMoveOn(states, acts, i, j);
  }

  // Step k writes the bundle of an install that expects version v.
  ghost predicate Wins(states: seq<Sys>, acts: seq<Act>, k: nat, v: int)
    requires k < |acts| < |states|
  {
    && acts[k].Replace? && acts[k].p < |states[k].procs| && states[k].procs[acts[k].p].Prepared?
    && states[k].procs[acts[k].p].op.Install? && states[k].procs[acts[k].p].op.expected == Some(v)
  }

  // It found version v, and leaves a later one or a file that cannot be loaded.
  lemma WinnerMoves(states: seq<Sys>, acts: seq<Act>, k: nat, v: int)
    requires IsRun(states, acts) && InstallsOnly(acts) && k < |acts| < |states| && Wins(states, acts, k, v)
    ensures Good(states[k].file) && Version(states[k].file) == v
    ensures Good(states[k + 1].file) ==> Version(states[k + 1].file) > v
    ensures Load(states[k + 1].file) != Nothing
  {
    TenureIsExclusive(states, acts, k);
    RunKeepsInv(states, acts, k);
    RunTaken(states, acts, k);
    var w := states[k].procs[acts[k].p];
    assert w.seen == states[k].file && ToWrite(w.op, w.seen) == Some(w.next) && states[k + 1].file == w.next;
    hide IsRun, InstallsOnly, Inv, SeesFile, Enabled, Apply;
    ExpectedIsMet(w.seen, w.op.bundle, v);
    if Good(w.next) {
      WriteRaises(w.op, w.seen, w.next);
    }
  }

  // Compare and swap: under installs alone, of all the calls that expect one version - of any
  // processes, at any time - at most one writes.
  lemma OneWinner(states: seq<Sys>, acts: seq<Act>, v: int, k: nat, l: nat)
    requires IsRun(states, acts) && InstallsOnly(acts) && k < |acts| < |states| && l < |acts|
    requires Wins(states, acts, k, v) && Wins(states, acts, l, v)
    ensures k == l
  {
    WinnerMoves(states, acts, k, v);
    WinnerMoves(states, acts, l, v);
    RunLength(states, acts);
    hide IsRun, InstallsOnly, Wins, Load;
    if k < l {
      InstallsMoveOn(states, acts, k + 1, l);
    } else if l < k {
      InstallsMoveOn(states, acts, l + 1, k);
    }
  }

  // ---- a lock that nobody gives back ----

  // The lock file has lost its owner: a process died inside a call, an acquisition raised after
  // creating the file, or a release raised before removing it.
  ghost predicate Orphaned(s: Sys) {
    s.abandoned || exists p :: 0 <= p < |s.procs| && s.procs[p] == Dead(true)
  }

  // The lock file is there only while somebody holds it, unless it was abandoned.
  ghost predicate LockIsHeld(s: Sys) {
    s.lock ==> s.abandoned || exists p :: 0 <= p < |s.procs| && HoldsLock(s.procs[p])
  }

  lemma StepKeepsHeld(s: Sys, a: Act)
    requires Inv(s) && LockIsHeld(s) && Enabled(s, a)
    ensures LockIsHeld(Apply(s, a))
  {
    hide Load, ToWrite;
    var t := Apply(s, a);
    if t.lock && !t.abandoned {
      if a.Enter? {
        assert HoldsLock(t.procs[a.p]);
      } else {
        var p :| 0 <= p < |s.procs| && HoldsLock(s.procs[p]);
        assert HoldsLock(t.procs[p]);
      }
    }
  }

  lemma {:induction false} RunKeepsHeld(states: seq<Sys>, acts: seq<Act>, k: nat)
    requires IsRun(states, acts) && k < |states|
    ensures LockIsHeld(states[k])
  {
    if k > 0 {
      RunKeepsHeld(states, acts, k - 1);
      RunKeepsInv(states, acts, k - 1);
      assert Taken(states, acts, k - 1);
      StepKeepsHeld(states[k - 1], acts[k - 1]);
    }
  }

  // Some continuation leads from s to t.
  ghost predicate Leads(s: Sys, more: seq<Act>, t: Sys)
    decreases more
  {
    if more == [] then s == t else Enabled(s, more[0]) && Leads(Apply(s, more[0]), more[1..], t)
  }

  lemma OrphanStep(s: Sys, a: Act)
    requires Inv(s) && Orphaned(s) && Enabled(s, a)
    ensures Orphaned(Apply(s, a)) && s.lock && Apply(s, a).lock && (a.Damage? || Apply(s, a).file == s.file)
  {
    hide Load, ToWrite;
    if !s.abandoned {
      var p :| 0 <= p < |s.procs| && s.procs[p] == Dead(true);
      assert HoldsLock(s.procs[p]);
      assert Apply(s, a).procs[p] == Dead(true);
    }
  }

  lemma OrphanIsLocked(s: Sys)
    requires Inv(s) && Orphaned(s)
    ensures s.lock
  {
    if !s.abandoned {
      var p :| 0 <= p < |s.procs| && s.procs[p] == Dead(true);
      assert HoldsLock(s.procs[p]);
    }
  }

  // From then on nobody enters any more, over every continuation.
  lemma {:induction false} OrphanStays(s: Sys, more: seq<Act>, t: Sys)
    requires Inv(s) && Orphaned(s) && Leads(s, more, t)
    ensures Orphaned(t) && t.lock && (Undamaged(more) ==> t.file == s.file)
    decreases more
  {
    OrphanIsLocked(s);
    if more != [] {
      OrphanStep(s, more[0]);
      StepKeepsInv(s, more[0]);
      hide Apply, Enabled, Inv, Orphaned;
      OrphanStays(Apply(s, more[0]), more[1..], t);
      if Undamaged(more) {
        assert !more[0].Damage?;
        assert forall k :: 0 <= k < |more[1..]| ==> more[1..][k] == more[k + 1];
      }
    }
  }

  function StepsLeft(p: Process): nat {
    match p
    case Entered(_) => 4
    case Loaded(_, _) => 3
    case Prepared(_, _, _) => 2
    case _ => 1
  }

  // A live holder can give the lock back, in at most four steps of its own call.
  lemma HolderFinishes(s: Sys, p: nat) returns (more: seq<Act>, t: Sys)
    requires p < |s.procs| && HoldsLock(s.procs[p]) && s.procs[p] != Dead(true)
    ensures Leads(s, more, t) && !t.lock && |more| <= StepsLeft(s.procs[p])
    ensures forall a :: a in more ==> a in [LoadIt(p), Decide(p), Replace(p), Leave(p)]
    decreases StepsLeft(s.procs[p])
  {
    hide Load, ToWrite;
    var a :=
      match s.procs[p]
      case Entered(_) => LoadIt(p)
      case Loaded(_, _) => Decide(p)
      case Prepared(_, _, _) => Replace(p)
      case _ => Leave(p);
    var u := Apply(s, a);
    if a.Leave? {
      more, t := [a], u;
      assert Leads(u, more[1..], t);
    } else {
      var rest;
      rest, t := HolderFinishes(u, p);
      more := [a] + rest;
      assert more[1..] == rest;
    }
  }

  // Some continuation gives the lock back.
  ghost predicate CanComeFree(s: Sys) {
    exists more, t :: Leads(s, more, t) && !t.lock
  }

  // In every reachable state the lock can still come free exactly when no process has died
  // holding it, and no acquisition or release of it has raised with the file in place.
  lemma LockComesFreeIff(states: seq<Sys>, acts: seq<Act>, k: nat)
    requires IsRun(states, acts) && k < |states|
    ensures CanComeFree(states[k]) <==> !Orphaned(states[k])
  {
    var s := states[k];
    RunKeepsInv(states, acts, k);
    RunKeepsHeld(states, acts, k);
    if Orphaned(s) {
      forall more, t | Leads(s, more, t) ensures t.lock {
        OrphanStays(s, more, t);
      }
    } else if s.lock {
      var p :| 0 <= p < |s.procs| && HoldsLock(s.procs[p]);
      var more, t := HolderFinishes(s, p);
    } else {
      assert Leads(s, [], s);
    }
  }

  // The shortest ways there: enter and crash; fail to write the lock file; fail to remove it at
  // the end of a call, after which nobody holds it and nobody died.
  lemma OrphaningRuns(file: File, op: Op)
    ensures var s := Sys(false, file, [Idle], false);
            var u := Apply(s, Enter(0, op));
            var v := Apply(u, Fail(0));
            var crashed, unacquired, unreleased := Apply(u, Crash(0)), Apply(s, EnterFails(0)), Apply(v, LeaveFails(0));
            && IsRun([s, u, crashed], [Enter(0, op), Crash(0)]) && Orphaned(crashed)
            && IsRun([s, unacquired], [EnterFails(0)]) && Orphaned(unacquired)
            && IsRun([s, u, v, unreleased], [Enter(0, op), Fail(0), LeaveFails(0)]) && Orphaned(unreleased)
            && unreleased.procs == [Idle] && unreleased.lock
  {
    hide Load, ToWrite;
    var s := Sys(false, file, [Idle], false);
    var u := Apply(s, Enter(0, op));
    var v, t := Apply(u, Fail(0)), Apply(u, Crash(0));
    assert Taken([s, u, t], [Enter(0, op), Crash(0)], 0) && Taken([s, u, t], [Enter(0, op), Crash(0)], 1);
    assert t.procs[0] == Dead(true);
    assert Taken([s, Apply(s, EnterFails(0))], [EnterFails(0)], 0);
    var states, acts := [s, u, v, Apply(v, LeaveFails(0))], [Enter(0, op), Fail(0), LeaveFails(0)];
    assert Taken(states, acts, 0) && Taken(states, acts, 1) && Taken(states, acts, 2);
  }

  lemma DeadStep(s: Sys, a: Act, p: nat)
    requires Inv(s) && p < |s.procs| && s.procs[p] == Dead(true) && Enabled(s, a)
    ensures |Apply(s, a).procs| == |s.procs| && Apply(s, a).procs[p] == Dead(true)
  {
  }

  // A crash inside a call leaves the lock file behind for good: nobody enters any more, and
  // the file stays as it is but for outside damage.
  lemma {:induction false} CrashInsideLocksForever(states: seq<Sys>, acts: seq<Act>, p: nat, i: nat, j: nat)
    requires IsRun(states, acts) && Undamaged(acts) && i <= j < |states|
    requires p < |states[i].procs| && states[i].procs[p] == Dead(true)
    ensures |states[j].procs| == |states[i].procs| && states[j].procs[p] == Dead(true) && states[j].lock
    ensures states[j].file == states[i].file
  {
    RunKeepsInv(states, acts, j);
    if i < j {
      CrashInsideLocksForever(states, acts, p, i, j - 1);
      RunKeepsInv(states, acts, j - 1);
      assert Taken(states, acts, j - 1);
      DeadStep(states[j - 1], acts[j - 1], p);
      OrphanStep(states[j - 1], acts[j - 1]);
    }
    hide Apply, Enabled, Inv;
    OrphanIsLocked(states[j]);
  }
}
