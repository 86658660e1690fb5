/** The watch registry: read-modify-replace under a file lock, lock-free reads, and
    processes that may die after any step. */
module Registry {
  import opened Wrappers

  /** A JSON value of the registry: a well-formed entry or anything else. */
  datatype Value = Entry(slug: string, addedTs: int) | Malformed

  type Raw = map<string, Value>

  /** A file's content: a whole JSON object, or something that does not parse. */
  datatype Content = Torn | Whole(raw: Raw)

  /** `keep` are the roots that still exist and may be watched. */
  datatype Mutation = Add(key: string, slug: string, ts: int) | Remove(key: string) | Prune(keep: set<string>)

  function Mutated(m: Mutation, raw: Raw): Raw {
    match m
    case Add(key, slug, ts) => raw[key := Entry(slug, ts)]
    case Remove(key) => if key !in raw then raw else raw - {key}
    case Prune(keep) => map k | k in raw && k in keep :: raw[k]
  }

  /** A missing or corrupt file reads as the empty registry. */
  function ReadRaw(c: Option<Content>): Raw {
    if c.Some? && c.value.Whole? then c.value.raw else map[]
  }

  function Parsed(raw: Raw): Raw {
    map k | k in raw && raw[k].Entry? :: raw[k]
  }

  // ---------------------------------------------------------------- processes

  /** Where a process is; `raw` is what it read, then what it is about to write. */
  datatype Phase =
    | Idle
    | Waiting(m: Mutation) | Locked(m: Mutation) | HasRead(m: Mutation, raw: Raw)
    | Opened(m: Mutation, raw: Raw) | Written(m: Mutation, raw: Raw) | Replaced | Failing
    | Loading(inode: Option<nat>, at: nat)

  /** The file system, the lock, the processes, and the history: mutations in the
      order in which they got the lock, which of them were put in place, which
      calls have returned, and what each load returned (and when it opened the file). */
  datatype State = State(
    initial: Option<Content>, inodes: map<nat, Content>, next: nat, reg: Option<nat>, tmp: Option<nat>,
    lock: Option<nat>, phases: map<nat, Phase>,
    acquired: seq<Mutation>, done: set<nat>, returned: set<nat>, loads: seq<(Raw, nat)>)

  datatype Event =
    | Invoke(p: nat, m: Mutation) | Lock(p: nat) | Read(p: nat) | Open(p: nat) | Write(p: nat) | Replace(p: nat)
    | Fail(p: nat) | Unlock(p: nat) | Crash(p: nat) | LoadOpen(p: nat) | LoadRead(p: nat)

  function PhaseOf(s: State, p: nat): Phase {
    if p in s.phases then s.phases[p] else Idle
  }

  function ContentOf(s: State, inode: Option<nat>): Option<Content> {
    if inode.Some? && inode.value in s.inodes then Some(s.inodes[inode.value]) else None
  }

  predicate Critical(ph: Phase) {
    ph.Locked? || ph.HasRead? || ph.Opened? || ph.Written? || ph.Replaced? || ph.Failing?
  }

  function Moved(s: State, p: nat, ph: Phase): State {
    s.(phases := s.phases[p := ph])
  }

  /** Opening for writing truncates the temporary file, or creates it. */
  function TmpOpened(s: State): State {
    match s.tmp
    case Some(i) => s.(inodes := s.inodes[i := Torn])
    case None => s.(inodes := s.inodes[s.next := Torn], tmp := Some(s.next), next := s.next + 1)
  }

  function Next(s: State, e: Event): State {
    var ph := PhaseOf(s, e.p);
    match e
    case Invoke(p, m) => if ph.Idle? then Moved(s, p, Waiting(m)) else s
    case Lock(p) =>
      if ph.Waiting? && s.lock.None?
      then Moved(s, p, Locked(ph.m)).(lock := Some(p), acquired := s.acquired + [ph.m])
      else s
    case Read(p) => if ph.Locked? then Moved(s, p, HasRead(ph.m, ReadRaw(ContentOf(s, s.reg)))) else s
    case Open(p) => if ph.HasRead? then Moved(TmpOpened(s), p, Opened(ph.m, Mutated(ph.m, ph.raw))) else s
    case Write(p) =>
      if ph.Opened? && s.tmp.Some?
      then Moved(s, p, Written(ph.m, ph.raw)).(inodes := s.inodes[s.tmp.value := Whole(ph.raw)])
      else s
    case Replace(p) =>
      if ph.Written? && s.tmp.Some? && |s.acquired| > 0
      then Moved(s, p, Replaced).(reg := s.tmp, tmp := None, done := s.done + {|s.acquired| - 1})
      else s
    case Fail(p) => if ph.HasRead? || ph.Opened? || ph.Written? then Moved(s, p, Failing).(tmp := None) else s
    case Unlock(p) =>
      if ph.Replaced? && |s.acquired| > 0
      then Moved(s, p, Idle).(lock := None, returned := s.returned + {|s.acquired| - 1})
      else if ph.Failing? then Moved(s, p, Idle).(lock := None)
      else s
    case Crash(p) => Moved(s, p, Idle).(lock := if s.lock == Some(p) then None else s.lock)
    case LoadOpen(p) => if ph.Idle? then Moved(s, p, Loading(s.reg, |Log(s)|)) else s
    case LoadRead(p) =>
      if ph.Loading? then Moved(s, p, Idle).(loads := s.loads + [(Parsed(ReadRaw(ContentOf(s, ph.inode))), ph.at)])
        else s
  }

  // ---------------------------------------------------------------- the sequential history

  /** The mutations at the given positions, in order. */
  function Chosen(acquired: seq<Mutation>, done: set<nat>): seq<Mutation> {
    if acquired == [] then []
    else
      var n := |acquired| - 1;
      Chosen(acquired[..n], done) + if n in done then [acquired[n]] else []
  }

  /** The mutations that were put in place, in lock order. */
  function Log(s: State): seq<Mutation> {
    Chosen(s.acquired, s.done)
  }

  function Composed(raw: Raw, ms: seq<Mutation>): Raw {
    if ms == [] then raw else Mutated(ms[|ms| - 1], Composed(raw, ms[..|ms| - 1]))
  }

  /** What the file is after the given mutations. */
  function FileAfter(initial: Option<Content>, ms: seq<Mutation>): Option<Content> {
    if ms == [] then initial else Some(Whole(Composed(ReadRaw(initial), ms)))
  }

  lemma ReadComposed(initial: Option<Content>, ms: seq<Mutation>)
    ensures ReadRaw(FileAfter(initial, ms)) == Composed(ReadRaw(initial), ms)
  {
  }

  lemma {:induction false} ChosenIgnores(acquired: seq<Mutation>, done: set<nat>, k: nat)
    requires k >= |acquired|
    ensures Chosen(acquired, done + {k}) == Chosen(acquired, done)
  {
    if acquired != [] {
      ChosenIgnores(acquired[..|acquired| - 1], done, k);
    }
  }

  lemma ChosenWaits(acquired: seq<Mutation>, done: set<nat>, m: Mutation)
    requires |acquired| !in done
    ensures Chosen(acquired + [m], done) == Chosen(acquired, done)
  {
    assert (acquired + [m])[..|acquired|] == acquired;
  }

  lemma ChosenCommits(acquired: seq<Mutation>, done: set<nat>)
    requires acquired != [] && |acquired| - 1 !in done
    ensures Chosen(acquired, done + {|acquired| - 1}) == Chosen(acquired, done) + [acquired[|acquired| - 1]]
  {
    ChosenIgnores(acquired[..|acquired| - 1], done, |acquired| - 1);
  }

  // ---------------------------------------------------------------- the invariant

  /** The registry file is the composition of the log. */
  ghost predicate FileGood(s: State) {
    && ContentOf(s, s.reg) == FileAfter(s.initial, Log(s))
    && (s.reg.Some? ==> s.reg.value in s.inodes && s.reg.value < s.next)
    && (s.tmp.Some? ==> s.tmp.value in s.inodes && s.tmp.value < s.next && s.tmp != s.reg)
    && (forall i :: i in s.inodes ==> i < s.next)
  }

  /** One process at most is in the critical section: the one that holds the lock. */
  ghost predicate LockGood(s: State) {
    && (forall p :: p in s.phases ==> (Critical(s.phases[p]) <==> s.lock == Some(p)))
    && (s.lock.Some? ==> s.lock.value in s.phases)
    && (forall k :: k in s.done ==> k < |s.acquired|)
    && s.returned <= s.done
  }

  /** What the lock holder knows. */
  ghost predicate HolderGood(s: State, ph: Phase) {
    && s.acquired != []
    && (ph.Replaced? <==> |s.acquired| - 1 in s.done)
    && (ph.Locked? || ph.HasRead? || ph.Opened? || ph.Written? ==> ph.m == s.acquired[|s.acquired| - 1])
    && (ph.HasRead? ==> ph.raw == Composed(ReadRaw(s.initial), Log(s)))
    && (ph.Opened? || ph.Written? ==> ph.raw == Mutated(ph.m, Composed(ReadRaw(s.initial), Log(s))) && s.tmp.Some?)
    && (ph.Written? ==> ContentOf(s, s.tmp) == Some(Whole(ph.raw)))
  }

  /** A reader's open file never changes: it is not the one being written. */
  ghost predicate ReaderGood(s: State, ph: Phase) {
    ph.Loading? ==>
      && ph.at <= |Log(s)| && ContentOf(s, ph.inode) == FileAfter(s.initial, Log(s)[..ph.at])
      && (ph.inode.Some? ==> ph.inode != s.tmp && ph.inode.value in s.inodes)
  }

  ghost predicate LoadsGood(s: State) {
    forall i :: 0 <= i < |s.loads| ==>
      s.loads[i].1 <= |Log(s)| && s.loads[i].0 == Parsed(Composed(ReadRaw(s.initial), Log(s)[..s.loads[i].1]))
  }

  ghost predicate Inv(s: State) {
    && FileGood(s) && LockGood(s) && LoadsGood(s)
    && (s.lock.Some? ==> HolderGood(s, PhaseOf(s, s.lock.value)))
    && forall p :: p in s.phases ==> ReaderGood(s, s.phases[p])
  }

  predicate Fresh(s: State) {
    && s.phases == map[] && s.lock.None? && s.acquired == [] && s.done == {} && s.returned == {} && s.loads == []
    && (if s.initial.Some? then s.reg == Some(0) && s.next == 1 && s.inodes == map[0 := s.initial.value]
        else s.reg.None? && s.next == 0 && s.inodes == map[])
    && s.tmp.None?
  }

  lemma FreshIsGood(s: State)
    requires Fresh(s)
    ensures Inv(s)
  {
  }

  // ---------------------------------------------------------------- every step keeps it

  lemma OpenKeeps(s: State, p: nat)
    requires Inv(s) && PhaseOf(s, p).HasRead?
    ensures Inv(Next(s, Open(p)))
  {
    var t := Next(s, Open(p));
    assert s.lock == Some(p);
    forall q | q in t.phases
      ensures ReaderGood(t, t.phases[q])
    {
      if q != p {
        assert ReaderGood(s, s.phases[q]);
      }
    }
  }

  lemma WriteKeeps(s: State, p: nat)
    requires Inv(s) && PhaseOf(s, p).Opened? && s.tmp.Some?
    ensures Inv(Next(s, Write(p)))
  {
    var t := Next(s, Write(p));
    assert s.lock == Some(p);
    forall q | q in t.phases
      ensures ReaderGood(t, t.phases[q])
    {
      if q != p {
        assert ReaderGood(s, s.phases[q]);
      }
    }
  }

  lemma ReplaceLogs(s: State, p: nat)
    requires Inv(s) && PhaseOf(s, p).Written?
    ensures s.lock == Some(p) && s.tmp.Some? && s.acquired != []
    ensures Log(Next(s, Replace(p))) == Log(s) + [PhaseOf(s, p).m]
  {
    assert s.lock == Some(p);
    ChosenCommits(s.acquired, s.done);
  }

  lemma ReplaceKeepsFile(s: State, p: nat)
    requires Inv(s) && PhaseOf(s, p).Written?
    ensures FileGood(Next(s, Replace(p)))
  {
    var t, m := Next(s, Replace(p)), PhaseOf(s, p).m;
    ReplaceLogs(s, p);
    assert Log(t)[..|Log(s)|] == Log(s);
    ReadComposed(s.initial, Log(s));
  }

  lemma ReplaceKeepsReaders(s: State, p: nat, q: nat)
    requires Inv(s) && PhaseOf(s, p).Written? && q in s.phases && q != p
    ensures ReaderGood(Next(s, Replace(p)), s.phases[q])
  {
    ReplaceLogs(s, p);
    assert ReaderGood(s, s.phases[q]);
    PrefixStays(Log(s), PhaseOf(s, p).m, if s.phases[q].Loading? then s.phases[q].at else 0);
  }

  lemma ReplaceKeepsLoads(s: State, p: nat)
    requires Inv(s) && PhaseOf(s, p).Written?
    ensures LoadsGood(Next(s, Replace(p)))
  {
    var t := Next(s, Replace(p));
    ReplaceLogs(s, p);
    forall i | 0 <= i < |t.loads|
      ensures t.loads[i].1 <= |Log(t)| && t.loads[i].0 == Parsed(Composed(ReadRaw(t.initial), Log(t)[..t.loads[i].1]))
    {
      PrefixStays(Log(s), PhaseOf(s, p).m, s.loads[i].1);
    }
  }

  lemma ReplaceKeeps(s: State, p: nat)
    requires Inv(s) && PhaseOf(s, p).Written?
    ensures Inv(Next(s, Replace(p))) && Log(Next(s, Replace(p))) == Log(s) + [PhaseOf(s, p).m]
  {
    var t := Next(s, Replace(p));
    ReplaceLogs(s, p);
    ReplaceKeepsFile(s, p);
    ReplaceKeepsLoads(s, p);
    assert t.lock == Some(p) && PhaseOf(t, p) == Replaced;
    forall q | q in t.phases
      ensures ReaderGood(t, t.phases[q])
    {
      if q != p {
        ReplaceKeepsReaders(s, p, q);
      }
    }
  }

  lemma PrefixStays(log: seq<Mutation>, m: Mutation, n: nat)
    ensures n <= |log| ==> (log + [m])[..n] == log[..n]
  {
  }

  lemma LoadReadKeeps(s: State, p: nat)
    requires Inv(s) && PhaseOf(s, p).Loading?
    ensures Inv(Next(s, LoadRead(p)))
  {
    var ph := PhaseOf(s, p);
    assert ReaderGood(s, ph);
    ReadComposed(s.initial, Log(s)[..ph.at]);
  }

  lemma ReadKeeps(s: State, p: nat)
    requires Inv(s) && PhaseOf(s, p).Locked?
    ensures Inv(Next(s, Read(p)))
  {
    assert s.lock == Some(p);
    ReadComposed(s.initial, Log(s));
  }

  /** A step that touches no open file and no commit. */
  ghost predicate SameFiles(s: State, t: State) {
    && t.initial == s.initial && t.inodes == s.inodes && t.next == s.next && t.reg == s.reg
    && Log(t) == Log(s) && t.loads == s.loads
    && (t.tmp == s.tmp || t.tmp.None?)
  }

  lemma SameFilesKeep(s: State, t: State)
    requires FileGood(s) && LoadsGood(s) && SameFiles(s, t)
    ensures FileGood(t) && LoadsGood(t)
  {
  }

  lemma ReaderStays(s: State, t: State, ph: Phase)
    requires SameFiles(s, t) && ReaderGood(s, ph)
    ensures ReaderGood(t, ph)
  {
  }

  /** Nobody but `p` moves, and `p` holds no open file afterwards. */
  lemma ReadersStay(s: State, t: State, p: nat)
    requires SameFiles(s, t) && (forall q :: q in s.phases ==> ReaderGood(s, s.phases[q]))
    requires forall q :: q in t.phases && q != p ==> q in s.phases && s.phases[q] == t.phases[q]
    requires p in t.phases ==> ReaderGood(t, t.phases[p])
    ensures forall q :: q in t.phases ==> ReaderGood(t, t.phases[q])
  {
    forall q | q in t.phases
      ensures ReaderGood(t, t.phases[q])
    {
      if q != p {
        ReaderStays(s, t, s.phases[q]);
      }
    }
  }

  lemma LockKeeps(s: State, p: nat)
    requires Inv(s) && PhaseOf(s, p).Waiting? && s.lock.None?
    ensures Inv(Next(s, Lock(p))) && Log(Next(s, Lock(p))) == Log(s)
  {
    var t := Next(s, Lock(p));
    ChosenWaits(s.acquired, s.done, PhaseOf(s, p).m);
    SameFilesKeep(s, t);
    ReadersStay(s, t, p);
    LockTaken(s, p);
  }

  lemma LockTaken(s: State, p: nat)
    requires LockGood(s) && PhaseOf(s, p).Waiting? && s.lock.None?
    ensures
      var t := Next(s, Lock(p));
      LockGood(t) && t.lock == Some(p) && PhaseOf(t, p) == Locked(PhaseOf(s, p).m) && HolderGood(t, PhaseOf(t, p))
  {
  }

  lemma LoadOpenKeeps(s: State, p: nat)
    requires Inv(s) && PhaseOf(s, p).Idle?
    ensures Inv(Next(s, LoadOpen(p)))
  {
    var t := Next(s, LoadOpen(p));
    assert Log(s)[..|Log(s)|] == Log(s);
    SameFilesKeep(s, t);
    ReadersStay(s, t, p);
    OthersHold(s, t, p);
  }

  /** A step of a process outside the critical section that stays outside. */
  lemma OthersHold(s: State, t: State, p: nat)
    requires LockGood(s) && (s.lock.Some? ==> HolderGood(s, PhaseOf(s, s.lock.value)))
    requires SameFiles(s, t) && t.tmp == s.tmp && t.lock == s.lock && t.acquired == s.acquired && t.done == s.done
    requires t.returned == s.returned
    requires t.phases == s.phases[p := PhaseOf(t, p)] && !Critical(PhaseOf(t, p)) && !Critical(PhaseOf(s, p))
    ensures LockGood(t) && (t.lock.Some? ==> HolderGood(t, PhaseOf(t, t.lock.value)))
  {
  }

  lemma InvokeKeeps(s: State, p: nat, m: Mutation)
    requires Inv(s) && PhaseOf(s, p).Idle?
    ensures Inv(Next(s, Invoke(p, m))) && Log(Next(s, Invoke(p, m))) == Log(s)
  {
    var t := Next(s, Invoke(p, m));
    SameFilesKeep(s, t);
    ReadersStay(s, t, p);
    OthersHold(s, t, p);
  }

  lemma FailKeeps(s: State, p: nat)
    requires Inv(s) && (PhaseOf(s, p).HasRead? || PhaseOf(s, p).Opened? || PhaseOf(s, p).Written?)
    ensures Inv(Next(s, Fail(p))) && Log(Next(s, Fail(p))) == Log(s)
  {
    assert s.lock == Some(p);
    SameFilesKeep(s, Next(s, Fail(p)));
    ReadersStay(s, Next(s, Fail(p)), p);
  }

  lemma UnlockKeeps(s: State, p: nat)
    requires Inv(s) && (PhaseOf(s, p).Replaced? || PhaseOf(s, p).Failing?)
    ensures Inv(Next(s, Unlock(p))) && Log(Next(s, Unlock(p))) == Log(s)
  {
    assert s.lock == Some(p);
    SameFilesKeep(s, Next(s, Unlock(p)));
    ReadersStay(s, Next(s, Unlock(p)), p);
  }

  lemma CrashKeeps(s: State, p: nat)
    requires Inv(s)
    ensures Inv(Next(s, Crash(p))) && Log(Next(s, Crash(p))) == Log(s)
  {
    SameFilesKeep(s, Next(s, Crash(p)));
    ReadersStay(s, Next(s, Crash(p)), p);
  }

  lemma StepKeeps(s: State, e: Event)
    requires Inv(s)
    ensures Inv(Next(s, e))
    ensures Log(s) <= Log(Next(s, e))
  {
    var ph := PhaseOf(s, e.p);
    match e
    case Lock(p) => if ph.Waiting? && s.lock.None? { LockKeeps(s, p); }
    case Read(p) => if ph.Locked? { ReadKeeps(s, p); }
    case Open(p) => if ph.HasRead? { OpenKeeps(s, p); }
    case Write(p) => if ph.Opened? && s.tmp.Some? { WriteKeeps(s, p); }
    case Replace(p) => if ph.Written? { ReplaceKeeps(s, p); }
    case LoadOpen(p) => if ph.Idle? { LoadOpenKeeps(s, p); }
    case LoadRead(p) => if ph.Loading? { LoadReadKeeps(s, p); }
    case Invoke(p, m) => if ph.Idle? { InvokeKeeps(s, p, m); }
    case Fail(p) => if ph.HasRead? || ph.Opened? || ph.Written? { FailKeeps(s, p); }
    case Unlock(p) => if ph.Replaced? || ph.Failing? { UnlockKeeps(s, p); }
    case Crash(p) => CrashKeeps(s, p);
  }

  function Run(s: State, events: seq<Event>): State {
    if events == [] then s else Next(Run(s, events[..|events| - 1]), events[|events| - 1])
  }

  lemma {:induction false} RunKeeps(s: State, events: seq<Event>)
    requires Inv(s)
    ensures Inv(Run(s, events)) && Log(s) <= Log(Run(s, events))
  {
    if events != [] {
      RunKeeps(s, events[..|events| - 1]);
      StepKeeps(Run(s, events[..|events| - 1]), events[|events| - 1]);
    }
  }

  // ---------------------------------------------------------------- linearizability

  /** After any run of any number of processes, crashes and failures included, the
      file is the composition, in lock order, of the mutations put in place, every
      call that returned is one of them, and every load returned a state of the file
      after some of them. */
  lemma Linearizable(s: State, events: seq<Event>)
    requires Fresh(s)
    ensures
      var t := Run(s, events);
      && ContentOf(t, t.reg) == FileAfter(t.initial, Log(t))
      && t.returned <= t.done
      && forall i :: 0 <= i < |t.loads| ==>
          t.loads[i].1 <= |Log(t)| && t.loads[i].0 == Parsed(Composed(ReadRaw(t.initial), Log(t)[..t.loads[i].1]))
  {
    FreshIsGood(s);
    RunKeeps(s, events);
  }

  /** History is only ever extended: what was in place at some moment stays in front
      of everything that gets the lock later. */
  lemma HistoryOnlyGrows(s: State, before: seq<Event>, later: seq<Event>)
    requires Fresh(s)
    ensures Log(Run(s, before)) <= Log(Run(Run(s, before), later))
    ensures Run(s, before).returned <= Run(Run(s, before), later).done
  {
    FreshIsGood(s);
    RunKeeps(s, before);
    RunKeeps(Run(s, before), later);
    DoneGrows(Run(s, before), later);
  }

  lemma {:induction false} DoneGrows(s: State, events: seq<Event>)
    ensures s.done <= Run(s, events).done
  {
    if events != [] {
      DoneGrows(s, events[..|events| - 1]);
    }
  }

  predicate Touches(m: Mutation, key: string) {
    match m
    case Add(k, _, _) => k == key
    case Remove(k) => k == key
    case Prune(keep) => key !in keep
  }

  /** The registry shows what the mutation says about the key. */
  predicate Stands(m: Mutation, key: string, now: Raw) {
    match m
    case Add(k, slug, ts) => k == key ==> key in now && now[key] == Entry(slug, ts)
    case Remove(k) => k == key ==> key !in now
    case Prune(keep) => key !in keep ==> key !in now
  }

  lemma StandsWhenMade(m: Mutation, key: string, raw: Raw)
    ensures Stands(m, key, Mutated(m, raw))
  {
  }

  lemma StandsWhenUntouched(m: Mutation, other: Mutation, key: string, raw: Raw)
    requires Stands(m, key, raw) && !Touches(other, key)
    ensures Stands(m, key, Mutated(other, raw))
  {
  }

  lemma {:induction false} StandsUntilTouched(raw: Raw, acquired: seq<Mutation>, done: set<nat>, k: nat, key: string)
    requires k < |acquired| && k in done
    requires forall j :: k < j < |acquired| && j in done ==> !Touches(acquired[j], key)
    ensures Stands(acquired[k], key, Composed(raw, Chosen(acquired, done)))
  {
    var n := |acquired| - 1;
    var init := Chosen(acquired[..n], done);
    if k < n {
      StandsUntilTouched(raw, acquired[..n], done, k, key);
      assert acquired[..n][k] == acquired[k];
    }
    if n in done {
      assert (init + [acquired[n]])[..|init|] == init;
      assert Chosen(acquired, done) == init + [acquired[n]];
      if k < n {
        StandsWhenUntouched(acquired[k], acquired[n], key, Composed(raw, init));
      } else {
        StandsWhenMade(acquired[n], key, Composed(raw, init));
      }
    } else {
      assert Chosen(acquired, done) == init;
    }
  }

  /** No completed call is lost: its effect on a key is in the file until a later
      mutation of that key replaces it. */
  lemma CompletedCallsStand(s: State, events: seq<Event>, k: nat, key: string)
    requires Fresh(s)
    requires k in Run(s, events).returned
    requires
      var t := Run(s, events);
      forall j :: k < j < |t.acquired| && j in t.done ==> !Touches(t.acquired[j], key)
    ensures
      var t := Run(s, events);
      k < |t.acquired| && Stands(t.acquired[k], key, ReadRaw(ContentOf(t, t.reg)))
  {
    var t := Run(s, events);
    FreshIsGood(s);
    RunKeeps(s, events);
    ReadComposed(t.initial, Log(t));
    StandsUntilTouched(ReadRaw(t.initial), t.acquired, t.done, k, key);
  }

  // ---------------------------------------------------------------- what a key shows

  function At(raw: Raw, key: string): Option<Value> {
    if key in raw then Some(raw[key]) else None
  }

  lemma {:induction false} Untouched(raw: Raw, ms: seq<Mutation>, key: string)
    requires forall j :: 0 <= j < |ms| ==> !Touches(ms[j], key)
    ensures At(Composed(raw, ms), key) == At(raw, key)
  {
    if ms != [] {
      Untouched(raw, ms[..|ms| - 1], key);
    }
  }

  lemma OneMutation(raw: Raw, m: Mutation, key: string)
    ensures At(Mutated(m, raw), key) ==
      if !Touches(m, key) then At(raw, key) else if m.Add? then Some(Entry(m.slug, m.ts)) else None
  {
  }

  /** The last mutation that touches the key decides it: an addition puts its entry there, a removal and a pruning take
      it away. */
  lemma {:induction false} LastTouchDecides(raw: Raw, ms: seq<Mutation>, key: string, i: nat)
    requires i < |ms| && Touches(ms[i], key) && forall j :: i < j < |ms| ==> !Touches(ms[j], key)
    ensures At(Composed(raw, ms), key) == if ms[i].Add? then Some(Entry(ms[i].slug, ms[i].ts)) else None
  {
    var n := |ms| - 1;
    OneMutation(Composed(raw, ms[..n]), ms[n], key);
    if i < n {
      LastTouchDecides(raw, ms[..n], key, i);
    }
  }

  /** The entry that a load shows for a key: that of the last mutation in `seen` that touches it, or, if none does, the
      one that was there at the start. */
  ghost predicate Shows(initial: Option<Content>, seen: seq<Mutation>, key: string, slug: string, ts: int) {
    || (exists i :: 0 <= i < |seen| && seen[i] == Add(key, slug, ts) && forall j :: i < j < |seen| ==>
          !Touches(seen[j], key))
    || ((forall j :: 0 <= j < |seen| ==> !Touches(seen[j], key))
        && initial.Some? && initial.value.Whole? && At(initial.value.raw, key) == Some(Entry(slug, ts)))
  }

  lemma ShowsIff(initial: Option<Content>, seen: seq<Mutation>, key: string, slug: string, ts: int)
    ensures At(Parsed(Composed(ReadRaw(initial), seen)), key) == Some(Entry(slug, ts)) <==>
      Shows(initial, seen, key, slug, ts)
  {
    var raw := ReadRaw(initial);
    assert At(Parsed(Composed(raw, seen)), key) == Some(Entry(slug, ts)) <==>
      At(Composed(raw, seen), key) == Some(Entry(slug, ts));
    if forall j :: 0 <= j < |seen| ==> !Touches(seen[j], key) {
      Untouched(raw, seen, key);
    } else {
      var k := LastTouch(seen, key);
      LastTouchDecides(raw, seen, key, k);
      forall i | 0 <= i < |seen| && seen[i] == Add(key, slug, ts) && forall j :: i < j < |seen| ==>
          !Touches(seen[j], key)
        ensures i == k
      {
        assert Touches(seen[i], key);
      }
    }
  }

  /** Every load, whatever the processes do meanwhile, answers for every key with the entry that the mutations put in
      place before it opened the file leave there, and never with a malformed one. */
  lemma LoadAnswers(s: State, events: seq<Event>, l: nat, key: string, slug: string, ts: int)
    requires Fresh(s) && l < |Run(s, events).loads|
    ensures Run(s, events).loads[l].1 <= |Log(Run(s, events))|
    ensures
      var t := Run(s, events);
      At(t.loads[l].0, key) == Some(Entry(slug, ts)) <==>
        Shows(t.initial, Log(t)[..t.loads[l].1], key, slug, ts)
    ensures At(Run(s, events).loads[l].0, key) != Some(Malformed)
  {
    Linearizable(s, events);
    var t := Run(s, events);
    ShowsIff(t.initial, Log(t)[..t.loads[l].1], key, slug, ts);
  }

  lemma {:induction false} LastTouch(ms: seq<Mutation>, key: string) returns (i: nat)
    requires exists j :: 0 <= j < |ms| && Touches(ms[j], key)
    ensures i < |ms| && Touches(ms[i], key) && forall j :: i < j < |ms| ==> !Touches(ms[j], key)
  {
    var n := |ms| - 1;
    if Touches(ms[n], key) {
      i := n;
    } else {
      var j :| 0 <= j < |ms| && Touches(ms[j], key);
      assert Touches(ms[..n][j], key);
      i := LastTouch(ms[..n], key);
      assert forall m :: i < m < n ==> ms[m] == ms[..n][m];
    }
  }
}
