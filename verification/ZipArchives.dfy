/**
 The cache of opened archives: calls of Root looking archives up under a lock, a single read per
 archive, a janitor that may remove entries between any two steps, and resources that turn out
 to be corrupted.
 */
module ZipArchives {
  import opened Basics
  import opened ZipIndex

  type Key = string
  type Time = int
  type Id = nat      // an archive, by creation order
  type Thread = nat

  /** readArchive: not started, running, or done. */
  datatype Phase = Unread | Reading | Done

  datatype Archive = Archive(
    key: Key,             // what it was created for
    number: nat,          // namespace of its side-cache keys
    entries: seq<ZipEntry>,  // what its zip directory lists
    phase: Phase,
    failed: bool,         // a.err != nil
    corrupt: bool,        // the resource's sticky error
    runs: nat,            // readArchive runs started
    indexed: nat,         // entries indexed
    files: map<string, nat>,
    directories: map<string, Header>,
    added: Time)          // when it was put into the cache

  datatype Status = Opening | OpenError | Opened | Corrupted

  function StatusOf(a: Archive): Status {
    if a.phase != Done then Opening
    else if a.failed then OpenError
    else if a.corrupt then Corrupted
    else Opened
  }

  datatype Item = Item(id: Id, expiry: Time)

  /** A call of Root. */
  datatype Pc =
    | Entering(key: Key)
    | Locked(key: Key)                     // holds cacheLock
    | Found(key: Key, id: Id, expiry: Time)
    | Refreshing(key: Key, id: Id)
    | Absent(key: Key)
    | Created(key: Key, id: Id)
    | Deleted(key: Key, id: Id)
    | Chosen(key: Key, id: Id)             // last state under the lock
    | AlreadyCached(key: Key)
    | OpeningArchive(id: Id)
    | Once(id: Id)
    | Waiting(id: Id)
    | Returned(id: Id)
    | Failed

  /** What was asked for, and the archives already corrupted when the call began. */
  datatype Call = Call(key: Key, pc: Pc, tainted: set<Id>)

  datatype State = State(
    now: Time,
    numbers: nat,         // the counter archives are numbered from
    archives: seq<Archive>,
    cache: map<Key, Item>,
    lock: Option<Thread>,
    calls: map<Thread, Call>)

  datatype Config = Config(expiration: Time, refresh: Time)

  datatype Action =
    | Tick(dt: nat)
    | Cleanup(key: Key)                  // the janitor removes an entry
    | ResetCache                         // a reconfiguration, under the lock
    | Corrupt(id: Id)
    | Begin(t: Thread, key: Key)
    | Lock(t: Thread)
    | Get(t: Thread)
    | Examine(t: Thread)
    | SetDefault(t: Thread)
    | NewArchive(t: Thread, entries: seq<ZipEntry>)
    | Delete(t: Thread)
    | Add(t: Thread)
    | Unlock(t: Thread)
    | CheckStatus(t: Thread)
    | DoOnce(t: Thread)
    | Wake(t: Thread)
    | GiveUp(t: Thread)
    | IndexNext(id: Id)
    | FinishRead(id: Id)
    | FailRead(id: Id)

  function Init(now: Time): State { State(now, 0, [], map[], None, map[]) }

  predicate UnderLock(pc: Pc) {
    || pc.Locked? || pc.Found? || pc.Refreshing? || pc.Absent?
    || pc.Created? || pc.Deleted? || pc.Chosen? || pc.AlreadyCached?
  }

  function At(s: State, t: Thread, pc: Pc): State
    requires t in s.calls
  {
    s.(calls := s.calls[t := s.calls[t].(pc := pc)])
  }

  /** What openArchive makes of the status it sees. */
  function AfterStatus(id: Id, st: Status): Pc {
    match st
    case Opening => Once(id)
    case Opened => Returned(id)
    case _ => Failed
  }

  /** What findOrCreateArchive makes of an archive it found. */
  function AfterFind(cfg: Config, key: Key, id: Id, left: Time, st: Status): Pc {
    match st
    case Opened => if left < cfg.refresh then Refreshing(key, id) else Chosen(key, id)
    case Corrupted => Absent(key)
    case _ => Chosen(key, id)
  }

  /** Steps of findOrCreateArchive, under the lock. */
  function StepLocked(cfg: Config, s: State, a: Action): Option<State>
    requires a.Get? || a.Examine? || a.SetDefault? || a.NewArchive? || a.Delete? || a.Add? || a.Unlock?
  {
    if a.t !in s.calls then None
    else
      match (a, s.calls[a.t].pc)
      case (Get(t), Locked(key)) =>
        if key in s.cache && s.cache[key].expiry >= s.now then
          Some(At(s, t, Found(key, s.cache[key].id, s.cache[key].expiry)))
        else Some(At(s, t, Absent(key)))
      case (Examine(t), Found(key, id, expiry)) =>
        if id >= |s.archives| then None
        else Some(At(s, t, AfterFind(cfg, key, id, expiry - s.now, StatusOf(s.archives[id]))))
      case (SetDefault(t), Refreshing(key, id)) =>
        Some(At(s, t, Chosen(key, id)).(cache := s.cache[key := Item(id, s.now + cfg.expiration)]))
      case (NewArchive(t, entries), Absent(key)) =>
        var archive := Archive(key, s.numbers + 1, entries, Unread, false, false, 0, 0, map[], map[], s.now);
        var s' := At(s, t, Created(key, |s.archives|));
        Some(s'.(numbers := s.numbers + 1, archives := s.archives + [archive]))
      case (Delete(t), Created(key, id)) =>
        Some(At(s, t, Deleted(key, id)).(cache := s.cache - {key}))
      case (Add(t), Deleted(key, id)) =>
        if id >= |s.archives| then None
        else if key in s.cache && s.cache[key].expiry >= s.now then Some(At(s, t, AlreadyCached(key)))
        else
          var s' := s.(archives := s.archives[id := s.archives[id].(added := s.now)],
                       cache := s.cache[key := Item(id, s.now + cfg.expiration)]);
          Some(At(s', t, Chosen(key, id)))
      case (Unlock(t), Chosen(key, id)) => Some(At(s, t, OpeningArchive(id)).(lock := None))
      case (Unlock(t), AlreadyCached(key)) => Some(At(s, t, Entering(key)).(lock := None))
      case _ => None
  }

  /** Steps of openArchive. */
  function StepOpen(s: State, a: Action): Option<State>
    requires a.CheckStatus? || a.DoOnce? || a.Wake? || a.GiveUp?
  {
    if a.t !in s.calls then None
    else
      match (a, s.calls[a.t].pc)
      case (CheckStatus(t), OpeningArchive(id)) =>
        if id >= |s.archives| then None
        else Some(At(s, t, AfterStatus(id, StatusOf(s.archives[id]))))
      case (DoOnce(t), Once(id)) =>
        if id >= |s.archives| then None
        else
          var a := s.archives[id];
          var a' := if a.phase == Unread then a.(phase := Reading, runs := a.runs + 1) else a;
          Some(At(s, t, Waiting(id)).(archives := s.archives[id := a']))
      case (Wake(t), Waiting(id)) =>
        if id >= |s.archives| || s.archives[id].phase != Done then None
        else Some(At(s, t, if s.archives[id].failed then Failed else Returned(id)))
      case (GiveUp(t), Waiting(id)) => Some(At(s, t, Failed))
      case _ => None
  }

  /** Steps of readArchive, and of the resource. */
  function StepArchive(s: State, a: Action): Option<State>
    requires a.Corrupt? || a.IndexNext? || a.FinishRead? || a.FailRead?
  {
    if a.id >= |s.archives| then None
    else
      var ar := s.archives[a.id];
      match a
      case Corrupt(id) =>
        if ar.phase != Done then None
        else Some(s.(archives := s.archives[id := ar.(corrupt := true)]))
      case IndexNext(id) =>
        if ar.phase != Reading || ar.indexed >= |ar.entries| then None
        else
          var i := ar.indexed;
          var ar' := ar.(indexed := i + 1,
                         files := FilesWith(ar.files, ar.entries[i], i),
                         directories := DirsWith(ar.directories, ar.entries[i], i));
          Some(s.(archives := s.archives[id := ar']))
      case FinishRead(id) =>
        if ar.phase != Reading || ar.indexed < |ar.entries| then None
        else Some(s.(archives := s.archives[id := ar.(phase := Done)]))
      case FailRead(id) =>
        if ar.phase != Reading || ar.indexed > 0 then None
        else Some(s.(archives := s.archives[id := ar.(phase := Done, failed := true)]))
  }

  function CorruptedNow(s: State): set<Id> {
    set i | 0 <= i < |s.archives| && StatusOf(s.archives[i]) == Corrupted
  }

  function Step(cfg: Config, s: State, a: Action): Option<State> {
    match a
    case Tick(dt) => Some(s.(now := s.now + dt))
    case Cleanup(key) => Some(s.(cache := s.cache - {key}))
    case ResetCache => if s.lock.Some? then None else Some(s.(cache := map[]))
    case Begin(t, key) =>
      if t in s.calls || key == "" then None
      else Some(s.(calls := s.calls[t := Call(key, Entering(key), CorruptedNow(s))]))
    case Lock(t) =>
      if t !in s.calls || !s.calls[t].pc.Entering? || s.lock.Some? then None
      else Some(At(s, t, Locked(s.calls[t].pc.key)).(lock := Some(t)))
    case Corrupt(_) => StepArchive(s, a)
    case IndexNext(_) => StepArchive(s, a)
    case FinishRead(_) => StepArchive(s, a)
    case FailRead(_) => StepArchive(s, a)
    case CheckStatus(_) => StepOpen(s, a)
    case DoOnce(_) => StepOpen(s, a)
    case Wake(_) => StepOpen(s, a)
    case GiveUp(_) => StepOpen(s, a)
    case _ => StepLocked(cfg, s, a)
  }

  function Play(cfg: Config, start: Time, run: seq<Action>): Option<State> {
    if run == [] then Some(Init(start))
    else
      match Play(cfg, start, run[..|run| - 1])
      case None => None
      case Some(s) => Step(cfg, s, run[|run| - 1])
  }
}
