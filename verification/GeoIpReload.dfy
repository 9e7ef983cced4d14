/** Lookups and reloads running at the same time (src/geoip.cpp): any number of reader and
    reloader threads around one shared_mutex.  Every lock region entry and exit, every
    database consulted under the shared lock, and every statement of a swap under the
    exclusive lock is a step of its own.
 */
module GeoIpReload {
  import opened Text
  import opened GeoIp
  import opened Counting

  /** A slot's handle variable: never opened; holding an open handle, the `gen`-th one
      installed there; or still holding a handle that MMDB_close has already freed. */
  datatype Cell = Empty | Live(id: nat, gen: nat) | Freed(id: nat, gen: nat)

  datatype Slots = Slots(country: Cell, asn: Cell, city: Cell)

  function Get(s: Slots, slot: Slot): Cell {
    match slot
    case Country => s.country
    case Asn => s.asn
    case City => s.city
  }

  function Put(s: Slots, slot: Slot, c: Cell): Slots {
    match slot
    case Country => s.(country := c)
    case Asn => s.(asn := c)
    case City => s.(city := c)
  }

  /** The handle a thread would use: the open flag is set for a freed one, too. */
  function HandleOf(c: Cell): Option<nat> {
    if c.Empty? then None else Some(c.id)
  }

  datatype Reader =
    | Idle
    | Looking(addr: string, stage: nat, progress: Progress, at: nat, earlier: nat)
    | Describing(slot: Slot, asked: bool, handle: Option<nat>, at: nat)  // in `*_metadata`

  datatype Writer =
    | Resting
    | Opened(slot: Slot, id: nat)     // MMDB_open succeeded, handle in `tmp`
    | Locked(slot: Slot, id: nat)     // exclusive lock taken
    | ClosedOld(slot: Slot, id: nat)  // the previous handle of the slot is closed
    | Installed                       // the slot holds the new handle, lock still held

  /** A finished lookup: which installed configuration it saw when it took the lock, and
      how many lookups had finished before it started. */
  datatype Done = Done(addr: string, progress: Progress, at: nat, earlier: nat)

  /** A finished `*_metadata` call: the handle it described, if the slot was open, and the
      installed configuration when it took the lock. */
  datatype Info = Info(slot: Slot, handle: Option<nat>, at: nat)

  datatype State = State(
    slots: Slots,
    readers: seq<Reader>,
    writers: seq<Writer>,
    handles: nat,         // handles are numbered in the order they were opened
    closed: seq<nat>,
    history: seq<Slots>,  // every configuration ever installed
    log: seq<Done>,
    infos: seq<Info>,
    usedFreed: bool)      // some reader has used a freed handle

  datatype Action =
    | BeginLookup(r: nat, addr: string)
    | StepLookup(r: nat)
    | EndLookup(r: nat)
    | BeginDescribe(r: nat, of: Slot)
    | ReadMetadata(r: nat)
    | EndDescribe(r: nat)
    | OpenFile(w: nat, target: Slot)
    | TakeLock(w: nat)
    | CloseOld(w: nat)
    | Install(w: nat)
    | Unlock(w: nat)

  predicate Holds(w: Writer) {
    w.Locked? || w.ClosedOld? || w.Installed?
  }

  predicate NobodyWrites(s: State) {
    forall i :: 0 <= i < |s.writers| ==> !Holds(s.writers[i])
  }

  predicate NobodyReads(s: State) {
    forall i :: 0 <= i < |s.readers| ==> s.readers[i].Idle?
  }

  /** What the threads and the lock allow.  A failing MMDB_open changes nothing and needs
      no step. */
  predicate Enabled(s: State, a: Action) {
    match a
    case BeginLookup(r, _) => r < |s.readers| && s.readers[r].Idle? && NobodyWrites(s)
    case StepLookup(r) => r < |s.readers| && s.readers[r].Looking? && s.readers[r].stage < 3
    case EndLookup(r) => r < |s.readers| && s.readers[r].Looking? && s.readers[r].stage == 3
    case BeginDescribe(r, _) => r < |s.readers| && s.readers[r].Idle? && NobodyWrites(s)
    case ReadMetadata(r) => r < |s.readers| && s.readers[r].Describing? && !s.readers[r].asked
    case EndDescribe(r) => r < |s.readers| && s.readers[r].Describing? && s.readers[r].asked
    case OpenFile(w, _) => w < |s.writers| && s.writers[w].Resting?
    case TakeLock(w) => w < |s.writers| && s.writers[w].Opened? && NobodyWrites(s) && NobodyReads(s)
    case CloseOld(w) => w < |s.writers| && s.writers[w].Locked?
    case Install(w) => w < |s.writers| && s.writers[w].ClosedOld?
    case Unlock(w) => w < |s.writers| && s.writers[w].Installed?
  }

  /** Consulting one database on the slots as they are. */
  function Consult(catalog: Catalog, slots: Slots, addr: string, stage: nat, p: Progress): Progress {
    if stage == 0 then CountryStep(catalog, HandleOf(slots.country), addr, p)
    else if stage == 1 then AsnStep(catalog, HandleOf(slots.asn), addr, p)
    else CityStep(catalog, HandleOf(slots.city), !slots.country.Empty?, addr, p)
  }

  predicate ConsultsFreed(slots: Slots, stage: nat, p: Progress) {
    if stage == 0 then slots.country.Freed?
    else if stage == 1 then slots.asn.Freed? && !p.error
    else slots.city.Freed? && !p.error
  }

  function Freeing(c: Cell): Cell {
    if c.Live? then Freed(c.id, c.gen) else c
  }

  function NextGen(c: Cell): nat {
    if c.Empty? then 1 else c.gen + 1
  }

  function Apply(catalog: Catalog, s: State, a: Action): State
    requires Enabled(s, a) && s.history != []
  {
    match a
    case BeginLookup(r, addr) =>
      s.(readers := s.readers[r := Looking(addr, 0, START, |s.history| - 1, |s.log|)])
    case StepLookup(r) =>
      var q := s.readers[r];
      var progress := Consult(catalog, s.slots, q.addr, q.stage, q.progress);
      s.(readers := s.readers[r := q.(stage := q.stage + 1, progress := progress)],
         usedFreed := s.usedFreed || ConsultsFreed(s.slots, q.stage, q.progress))
    case EndLookup(r) =>
      var q := s.readers[r];
      s.(readers := s.readers[r := Idle], log := s.log + [Done(q.addr, q.progress, q.at, q.earlier)])
    case BeginDescribe(r, slot) =>
      s.(readers := s.readers[r := Describing(slot, false, None, |s.history| - 1)])
    case ReadMetadata(r) =>
      var q := s.readers[r];
      var cell := Get(s.slots, q.slot);
      s.(readers := s.readers[r := q.(asked := true, handle := HandleOf(cell))],
         usedFreed := s.usedFreed || cell.Freed?)
    case EndDescribe(r) =>
      var q := s.readers[r];
      s.(readers := s.readers[r := Idle], infos := s.infos + [Info(q.slot, q.handle, q.at)])
    case OpenFile(w, slot) =>
      s.(writers := s.writers[w := Opened(slot, s.handles)], handles := s.handles + 1)
    case TakeLock(w) =>
      s.(writers := s.writers[w := Locked(s.writers[w].slot, s.writers[w].id)])
    case CloseOld(w) =>
      var slot, id := s.writers[w].slot, s.writers[w].id;
      var old_ := Get(s.slots, slot);
      s.(writers := s.writers[w := ClosedOld(slot, id)],
         slots := Put(s.slots, slot, Freeing(old_)),
         closed := if old_.Empty? then s.closed else s.closed + [old_.id])
    case Install(w) =>
      var slot, id := s.writers[w].slot, s.writers[w].id;
      var slots := Put(s.slots, slot, Live(id, NextGen(Get(s.slots, slot))));
      s.(writers := s.writers[w := Installed], slots := slots, history := s.history + [slots])
    case Unlock(w) =>
      s.(writers := s.writers[w := Resting])
  }

  // ----- runs -----

  function Init(readers: nat, writers: nat): State {
    var none := Slots(Empty, Empty, Empty);
    State(none, seq(readers, _ => Idle), seq(writers, _ => Resting), 0, [], [none], [], [], false)
  }

  /** Every interleaving: each action is enabled in the state the ones before it lead to. */
  ghost predicate Legal(catalog: Catalog, s: State, actions: seq<Action>)
    decreases |actions|
  {
    actions == []
    || (s.history != [] && Enabled(s, actions[0]) && Legal(catalog, Apply(catalog, s, actions[0]), actions[1..]))
  }

  ghost function After(catalog: Catalog, s: State, actions: seq<Action>): State
    requires Legal(catalog, s, actions)
    decreases |actions|
  {
    if actions == [] then s else After(catalog, Apply(catalog, s, actions[0]), actions[1..])
  }

  // ----- the invariant, in parts -----

  function LookupOn(catalog: Catalog, slots: Slots, addr: string): Progress {
    Lookup(catalog, HandleOf(slots.country), HandleOf(slots.asn), HandleOf(slots.city), addr)
  }

  /** The first `stage` databases of a lookup on fixed slots. */
  function Partial(catalog: Catalog, slots: Slots, addr: string, stage: nat): Progress
    requires stage <= 3
  {
    if stage == 0 then START
    else Consult(catalog, slots, addr, stage - 1, Partial(catalog, slots, addr, stage - 1))
  }

  lemma PartialIsLookup(catalog: Catalog, slots: Slots, addr: string)
    ensures Partial(catalog, slots, addr, 3) == LookupOn(catalog, slots, addr)
  {
    assert Partial(catalog, slots, addr, 1) == Consult(catalog, slots, addr, 0, START);
    assert Partial(catalog, slots, addr, 2) == Consult(catalog, slots, addr, 1, Partial(catalog, slots, addr, 1));
  }

  predicate NoneFreed(s: Slots) {
    !s.country.Freed? && !s.asn.Freed? && !s.city.Freed?
  }

  /** A later configuration never goes back: generations grow, open slots stay open. */
  predicate CellLeq(a: Cell, b: Cell) {
    (a.Live? ==> b.Live? && a.gen <= b.gen) && (a.Empty? ==> b.Live? || b.Empty?) && !a.Freed?
  }

  predicate SlotsLeq(a: Slots, b: Slots) {
    CellLeq(a.country, b.country) && CellLeq(a.asn, b.asn) && CellLeq(a.city, b.city)
  }

  /** At most one thread holds the lock exclusively, and then nobody reads. */
  predicate LockInv(s: State) {
    && (forall i, j :: 0 <= i < |s.writers| && 0 <= j < |s.writers| && Holds(s.writers[i]) && Holds(s.writers[j])
                       ==> i == j)
    && (!NobodyWrites(s) ==> NobodyReads(s))
  }

  /** Outside the window between close and install, the slots are the configuration
      installed last; in the window the one slot being replaced is freed. */
  predicate SlotsInv(s: State) {
    && s.history != []
    && (forall k :: 0 <= k < |s.history| ==> NoneFreed(s.history[k]))
    && ((forall i :: 0 <= i < |s.writers| ==> !s.writers[i].ClosedOld?) ==> s.slots == s.history[|s.history| - 1])
    && (forall i :: 0 <= i < |s.writers| && s.writers[i].ClosedOld? ==>
          var slot := s.writers[i].slot;
          var last := s.history[|s.history| - 1];
          s.slots == Put(last, slot, Freeing(Get(last, slot))))
  }

  predicate ReaderOk(catalog: Catalog, s: State, q: Reader)
    requires s.history != []
  {
    && (q.Looking? ==>
          && q.stage <= 3 && q.at == |s.history| - 1 && q.earlier <= |s.log|
          && q.progress == Partial(catalog, s.history[q.at], q.addr, q.stage))
    && (q.Describing? ==>
          && q.at == |s.history| - 1
          && (q.asked ==> q.handle == HandleOf(Get(s.history[q.at], q.slot))))
  }

  predicate ReadersInv(catalog: Catalog, s: State)
    requires s.history != []
  {
    forall i :: 0 <= i < |s.readers| ==> ReaderOk(catalog, s, s.readers[i])
  }

  predicate DoneOk(catalog: Catalog, s: State, k: nat)
    requires k < |s.log|
  {
    var d := s.log[k];
    && d.at < |s.history| && d.earlier <= k
    && d.progress == LookupOn(catalog, s.history[d.at], d.addr)
    && forall j :: 0 <= j < d.earlier ==> s.log[j].at <= d.at
  }

  predicate LogInv(catalog: Catalog, s: State) {
    forall k :: 0 <= k < |s.log| ==> DoneOk(catalog, s, k)
  }

  /** Every description is of the handle installed when its lock was taken. */
  predicate InfosInv(s: State) {
    forall k :: 0 <= k < |s.infos| ==>
      && s.infos[k].at < |s.history|
      && s.infos[k].handle == HandleOf(Get(s.history[s.infos[k].at], s.infos[k].slot))
  }

  predicate HistoryInv(s: State) {
    forall i, j :: 0 <= i <= j < |s.history| ==> SlotsLeq(s.history[i], s.history[j])
  }

  predicate Inv(catalog: Catalog, s: State) {
    && LockInv(s) && SlotsInv(s) && ReadersInv(catalog, s) && LogInv(catalog, s) && InfosInv(s) && HistoryInv(s)
    && !s.usedFreed
  }

  lemma InitInv(catalog: Catalog, readers: nat, writers: nat)
    ensures Inv(catalog, Init(readers, writers))
  {
  }

  lemma StepKeepsLock(catalog: Catalog, s: State, a: Action)
    requires s.history != [] && LockInv(s) && Enabled(s, a)
    ensures LockInv(Apply(catalog, s, a))
  {
    var t := Apply(catalog, s, a);
    match a {
      case BeginLookup(r, addr) => assert NobodyWrites(t);
      case StepLookup(r) =>
        assert !NobodyReads(s);
        assert NobodyWrites(t);
      case EndLookup(r) =>
        assert !NobodyReads(s);
        assert NobodyWrites(t);
      case BeginDescribe(r, slot) => assert NobodyWrites(t);
      case ReadMetadata(r) =>
        assert !NobodyReads(s);
        assert NobodyWrites(t);
      case EndDescribe(r) =>
        assert !NobodyReads(s);
        assert NobodyWrites(t);
      case OpenFile(w, slot) =>
      case TakeLock(w) =>
      case CloseOld(w) =>
      case Install(w) =>
      case Unlock(w) => assert NobodyWrites(t);
    }
  }

  lemma ClosingKeepsSlots(catalog: Catalog, s: State, w: nat)
    requires LockInv(s) && SlotsInv(s) && HistoryInv(s) && Enabled(s, CloseOld(w))
    ensures SlotsInv(Apply(catalog, s, CloseOld(w))) && HistoryInv(Apply(catalog, s, CloseOld(w)))
  {
    var t := Apply(catalog, s, CloseOld(w));
    assert Holds(s.writers[w]);
    assert forall i :: 0 <= i < |s.writers| ==> !s.writers[i].ClosedOld?;
    assert t.writers[w].ClosedOld?;
  }

  lemma InstallingKeepsSlots(catalog: Catalog, s: State, w: nat)
    requires LockInv(s) && SlotsInv(s) && HistoryInv(s) && Enabled(s, Install(w))
    ensures SlotsInv(Apply(catalog, s, Install(w))) && HistoryInv(Apply(catalog, s, Install(w)))
  {
    var t := Apply(catalog, s, Install(w));
    assert Holds(s.writers[w]);
    assert forall i :: 0 <= i < |t.writers| ==> !t.writers[i].ClosedOld?;
    InstallGrows(s, w);
  }

  lemma StepKeepsSlots(catalog: Catalog, s: State, a: Action)
    requires LockInv(s) && SlotsInv(s) && HistoryInv(s) && Enabled(s, a)
    ensures SlotsInv(Apply(catalog, s, a)) && HistoryInv(Apply(catalog, s, a))
  {
    var t := Apply(catalog, s, a);
    match a {
      case BeginLookup(r, addr) =>
      case StepLookup(r) =>
      case EndLookup(r) =>
      case BeginDescribe(r, slot) =>
      case ReadMetadata(r) =>
      case EndDescribe(r) =>
      case OpenFile(w, slot) => SameClosing(s, t, w);
      case TakeLock(w) => SameClosing(s, t, w);
      case CloseOld(w) => ClosingKeepsSlots(catalog, s, w);
      case Install(w) => InstallingKeepsSlots(catalog, s, w);
      case Unlock(w) => SameClosing(s, t, w);
    }
  }

  lemma SameClosing(s: State, t: State, w: nat)
    requires |s.writers| == |t.writers| && w < |s.writers|
    requires !s.writers[w].ClosedOld? && !t.writers[w].ClosedOld?
    requires t.writers == s.writers[w := t.writers[w]]
    ensures (forall i :: 0 <= i < |t.writers| ==> !t.writers[i].ClosedOld?)
            ==> (forall i :: 0 <= i < |s.writers| ==> !s.writers[i].ClosedOld?)
  {
    if forall i :: 0 <= i < |t.writers| ==> !t.writers[i].ClosedOld? {
      forall i | 0 <= i < |s.writers| ensures !s.writers[i].ClosedOld? {
        assert i != w ==> t.writers[i] == s.writers[i];
      }
    }
  }

  /** Installing adds a configuration that differs from the last in one slot, whose
      generation is one higher. */
  lemma InstallGrows(s: State, w: nat)
    requires SlotsInv(s) && HistoryInv(s) && w < |s.writers| && s.writers[w].ClosedOld?
    ensures var slot := s.writers[w].slot;
            var last := s.history[|s.history| - 1];
            var next := Put(s.slots, slot, Live(s.writers[w].id, NextGen(Get(s.slots, slot))));
            && next == Put(last, slot, Live(s.writers[w].id, NextGen(Get(last, slot))))
            && NoneFreed(next)
            && SlotsLeq(last, next)
            && forall k :: 0 <= k < |s.history| ==> SlotsLeq(s.history[k], next)
  {
    var last := s.history[|s.history| - 1];
    assert NoneFreed(last);
    assert SlotsLeq(last, last);
  }

  lemma StepKeepsReaders(catalog: Catalog, s: State, a: Action)
    requires Inv(catalog, s) && Enabled(s, a)
    ensures ReadersInv(catalog, Apply(catalog, s, a)) && !Apply(catalog, s, a).usedFreed
  {
    var t := Apply(catalog, s, a);
    match a {
      case BeginLookup(r, addr) =>
      case StepLookup(r) =>
        ReadingSeesInstalled(s, r);
        assert ReaderOk(catalog, s, s.readers[r]);
        assert NoneFreed(s.slots);
      case EndLookup(r) =>
        forall i | 0 <= i < |t.readers| ensures ReaderOk(catalog, t, t.readers[i]) {
          assert ReaderOk(catalog, s, s.readers[i]);
        }
      case BeginDescribe(r, slot) =>
      case ReadMetadata(r) =>
        ReadingSeesInstalled(s, r);
        assert ReaderOk(catalog, s, s.readers[r]);
      case EndDescribe(r) =>
      case OpenFile(w, slot) =>
      case TakeLock(w) =>
      case CloseOld(w) =>
      case Install(w) =>
        assert Holds(s.writers[w]);
        assert NobodyReads(s);
      case Unlock(w) =>
    }
  }

  /** While a reader holds the lock, the slots are the configuration it found. */
  lemma ReadingSeesInstalled(s: State, r: nat)
    requires LockInv(s) && SlotsInv(s) && r < |s.readers| && !s.readers[r].Idle?
    ensures s.slots == s.history[|s.history| - 1] && NoneFreed(s.slots)
  {
    assert !NobodyReads(s);
    assert NobodyWrites(s);
    forall i | 0 <= i < |s.writers| ensures !s.writers[i].ClosedOld? {
      assert !Holds(s.writers[i]);
    }
  }

  lemma StepKeepsLog(catalog: Catalog, s: State, a: Action)
    requires Inv(catalog, s) && Enabled(s, a)
    ensures LogInv(catalog, Apply(catalog, s, a))
  {
    var t := Apply(catalog, s, a);
    forall k | 0 <= k < |t.log| ensures DoneOk(catalog, t, k) {
      if k < |s.log| {
        assert DoneOk(catalog, s, k);
      } else {
        var q := s.readers[a.r];
        assert ReaderOk(catalog, s, q);
        PartialIsLookup(catalog, s.history[q.at], q.addr);
        forall j | 0 <= j < q.earlier ensures t.log[j].at <= q.at {
          assert DoneOk(catalog, s, j);
        }
      }
    }
  }

  lemma StepKeepsInfos(catalog: Catalog, s: State, a: Action)
    requires Inv(catalog, s) && Enabled(s, a)
    ensures InfosInv(Apply(catalog, s, a))
  {
    if a.EndDescribe? {
      assert ReaderOk(catalog, s, s.readers[a.r]);
    }
  }

  lemma StepKeepsInv(catalog: Catalog, s: State, a: Action)
    requires Inv(catalog, s) && Enabled(s, a)
    ensures Inv(catalog, Apply(catalog, s, a))
  {
    StepKeepsLock(catalog, s, a);
    StepKeepsSlots(catalog, s, a);
    StepKeepsReaders(catalog, s, a);
    StepKeepsLog(catalog, s, a);
    StepKeepsInfos(catalog, s, a);
  }

  lemma {:induction false} RunKeepsInv(catalog: Catalog, s: State, actions: seq<Action>)
    requires Inv(catalog, s) && Legal(catalog, s, actions)
    ensures Inv(catalog, After(catalog, s, actions))
    decreases |actions|
  {
    if actions != [] {
      StepKeepsInv(catalog, s, actions[0]);
      RunKeepsInv(catalog, Apply(catalog, s, actions[0]), actions[1..]);
    }
  }

  // ----- what every run keeps -----

  /** Linearizability: in every interleaving each finished lookup equals the sequential
      lookup on one installed configuration, the one in force when it took the lock; it
      has touched no closed handle; and a lookup that started after another one finished
      sees no older configuration, in no slot an older generation. */
  lemma LookupsLinearize(catalog: Catalog, readers: nat, writers: nat, actions: seq<Action>)
    requires Legal(catalog, Init(readers, writers), actions)
    ensures var s := After(catalog, Init(readers, writers), actions);
            && !s.usedFreed
            && (forall k :: 0 <= k < |s.log| ==>
                  s.log[k].at < |s.history|
                  && s.log[k].progress == LookupOn(catalog, s.history[s.log[k].at], s.log[k].addr))
            && (forall j, k | 0 <= k < |s.log| && 0 <= j < s.log[k].earlier ::
                  j < |s.log| && s.log[j].at <= s.log[k].at
                  && SlotsLeq(s.history[s.log[j].at], s.history[s.log[k].at]))
  {
    var s := After(catalog, Init(readers, writers), actions);
    InitInv(catalog, readers, writers);
    RunKeepsInv(catalog, Init(readers, writers), actions);
    forall k | 0 <= k < |s.log|
      ensures s.log[k].at < |s.history|
              && s.log[k].progress == LookupOn(catalog, s.history[s.log[k].at], s.log[k].addr)
      ensures s.log[k].earlier <= k
      ensures forall j :: 0 <= j < s.log[k].earlier ==> s.log[j].at <= s.log[k].at
    {
      assert DoneOk(catalog, s, k);
    }
  }

  /** Metadata under the lock: in every interleaving a description is of the handle that was
      installed when its lock was taken, is made exactly if that slot was open, and never
      reads a closed handle. */
  lemma MetadataIsOfInstalled(catalog: Catalog, readers: nat, writers: nat, actions: seq<Action>, k: nat)
    requires Legal(catalog, Init(readers, writers), actions)
    requires k < |After(catalog, Init(readers, writers), actions).infos|
    ensures var s := After(catalog, Init(readers, writers), actions);
            var info := s.infos[k];
            && !s.usedFreed
            && info.at < |s.history|
            && info.handle == HandleOf(Get(s.history[info.at], info.slot))
            && (info.handle.Some? <==> Get(s.history[info.at], info.slot).Live?)
  {
    var s := After(catalog, Init(readers, writers), actions);
    InitInv(catalog, readers, writers);
    RunKeepsInv(catalog, Init(readers, writers), actions);
    assert NoneFreed(s.history[s.infos[k].at]);
  }

  /** Country authority over runs: a lookup that finds the country slot open answers
      country and continent from that slot's database alone, whatever was loaded or reloaded
      elsewhere; and once one configuration has it open, every lookup on a later one does.
      With no country database, the city database alone answers. */
  lemma CountryAuthorityIsStable(catalog: Catalog, readers: nat, writers: nat, actions: seq<Action>, i: nat, k: nat)
    requires Legal(catalog, Init(readers, writers), actions)
    requires var s := After(catalog, Init(readers, writers), actions);
             i < |s.history| && k < |s.log| && !s.log[k].progress.error
    ensures var s := After(catalog, Init(readers, writers), actions);
            var d := s.log[k];
            && d.at < |s.history|
            && (s.history[i].country.Live? && i <= d.at ==> s.history[d.at].country.Live?)
            && var country := HandleOf(s.history[d.at].country);
               var city := HandleOf(s.history[d.at].city);
               SameCountryFields(d.progress.result,
                                 if country.Some? then Lookup(catalog, country, None, None, d.addr).result
                                 else Lookup(catalog, None, None, city, d.addr).result)
  {
    var s := After(catalog, Init(readers, writers), actions);
    InitInv(catalog, readers, writers);
    RunKeepsInv(catalog, Init(readers, writers), actions);
    assert DoneOk(catalog, s, k);
    var d := s.log[k];
    var c, a, t := HandleOf(s.history[d.at].country), HandleOf(s.history[d.at].asn), HandleOf(s.history[d.at].city);
    LookupMeaning(catalog, c, a, t, d.addr);
    LookupMeaning(catalog, c, None, None, d.addr);
    LookupMeaning(catalog, None, None, t, d.addr);
    if i <= d.at {
      assert SlotsLeq(s.history[i], s.history[d.at]);
    }
  }

  // ----- the life of a handle -----

  function InCell(c: Cell, id: nat): nat {
    if c.Live? && c.id == id then 1 else 0
  }

  function InSlots(s: Slots, id: nat): nat {
    InCell(s.country, id) + InCell(s.asn, id) + InCell(s.city, id)
  }

  function InHand(w: Writer, id: nat): nat {
    if (w.Opened? || w.Locked? || w.ClosedOld?) && w.id == id then 1 else 0
  }

  function InHands(writers: seq<Writer>, id: nat): nat {
    if writers == [] then 0 else InHand(writers[0], id) + InHands(writers[1..], id)
  }

  lemma {:induction false} InHandsUpdate(writers: seq<Writer>, w: nat, now: Writer, id: nat)
    requires w < |writers|
    ensures InHands(writers[w := now], id) == InHands(writers, id) - InHand(writers[w], id) + InHand(now, id)
  {
    if w == 0 {
      assert writers[0 := now][1..] == writers[1..];
    } else {
      assert writers[w := now][1..] == writers[1..][w - 1 := now];
      InHandsUpdate(writers[1..], w - 1, now, id);
    }
  }

  /** An opened handle is in exactly one place: closed, in a slot, or in the hands of the
      thread that opened it; a number not handed out yet is nowhere. */
  predicate Ledger(s: State, id: nat) {
    Times(s.closed, id) + InSlots(s.slots, id) + InHands(s.writers, id) == if id < s.handles then 1 else 0
  }

  lemma FreeingSlot(s: Slots, slot: Slot, id: nat)
    ensures InSlots(Put(s, slot, Freeing(Get(s, slot))), id) == InSlots(s, id) - InCell(Get(s, slot), id)
  {
  }

  // What closing the previous handle of a slot moves.
  lemma CloseMoves(closed: seq<nat>, slots: Slots, slot: Slot, id: nat)
    requires NoneFreed(slots)
    ensures var previous := Get(slots, slot);
            Times(if previous.Empty? then closed else closed + [previous.id], id)
            + InSlots(Put(slots, slot, Freeing(previous)), id) == Times(closed, id) + InSlots(slots, id)
  {
    var previous := Get(slots, slot);
    FreeingSlot(slots, slot, id);
    if !previous.Empty? {
      TimesAppend(closed, previous.id, id);
    }
  }

  lemma HandIsKept(writers: seq<Writer>, w: nat, id: nat)
    requires w < |writers| && writers[w].Locked?
    ensures InHands(writers[w := ClosedOld(writers[w].slot, writers[w].id)], id) == InHands(writers, id)
  {
    InHandsUpdate(writers, w, ClosedOld(writers[w].slot, writers[w].id), id);
  }

  lemma LedgerOfMoves(s: State, t: State, id: nat)
    requires Ledger(s, id) && t.handles == s.handles && InHands(t.writers, id) == InHands(s.writers, id)
    requires Times(t.closed, id) + InSlots(t.slots, id) == Times(s.closed, id) + InSlots(s.slots, id)
    ensures Ledger(t, id)
  {
  }

  lemma CloseKeepsLedger(catalog: Catalog, s: State, w: nat, id: nat)
    requires LockInv(s) && SlotsInv(s) && Ledger(s, id) && Enabled(s, CloseOld(w))
    ensures Ledger(Apply(catalog, s, CloseOld(w)), id)
  {
    LockedSeesInstalled(s, w);
    HandIsKept(s.writers, w, id);
    CloseMoves(s.closed, s.slots, s.writers[w].slot, id);
    CloseEffect(catalog, s, w);
    LedgerOfMoves(s, Apply(catalog, s, CloseOld(w)), id);
  }

  lemma CloseEffect(catalog: Catalog, s: State, w: nat)
    requires s.history != [] && Enabled(s, CloseOld(w))
    ensures var t, slot := Apply(catalog, s, CloseOld(w)), s.writers[w].slot;
            var previous := Get(s.slots, slot);
            && t.handles == s.handles && t.writers == s.writers[w := ClosedOld(slot, s.writers[w].id)]
            && t.slots == Put(s.slots, slot, Freeing(previous))
            && t.closed == if previous.Empty? then s.closed else s.closed + [previous.id]
  {
  }

  lemma InstallKeepsLedger(catalog: Catalog, s: State, w: nat, id: nat)
    requires SlotsInv(s) && Ledger(s, id) && Enabled(s, Install(w))
    ensures Ledger(Apply(catalog, s, Install(w)), id)
  {
    var t := Apply(catalog, s, Install(w));
    InHandsUpdate(s.writers, w, t.writers[w], id);
    assert !Get(s.slots, s.writers[w].slot).Live?;
    assert InSlots(t.slots, id) == InSlots(s.slots, id) + InHand(s.writers[w], id);
  }

  lemma StepKeepsLedger(catalog: Catalog, s: State, a: Action, id: nat)
    requires LockInv(s) && SlotsInv(s) && Ledger(s, id) && Enabled(s, a)
    ensures Ledger(Apply(catalog, s, a), id)
  {
    var t := Apply(catalog, s, a);
    match a {
      case BeginLookup(r, addr) =>
      case StepLookup(r) =>
      case EndLookup(r) =>
      case BeginDescribe(r, slot) =>
      case ReadMetadata(r) =>
      case EndDescribe(r) =>
      case OpenFile(w, target) =>
        InHandsUpdate(s.writers, w, t.writers[w], id);
      case TakeLock(w) => InHandsUpdate(s.writers, w, t.writers[w], id);
      case CloseOld(w) => CloseKeepsLedger(catalog, s, w, id);
      case Install(w) => InstallKeepsLedger(catalog, s, w, id);
      case Unlock(w) => InHandsUpdate(s.writers, w, t.writers[w], id);
    }
  }

  lemma LockedSeesInstalled(s: State, w: nat)
    requires LockInv(s) && SlotsInv(s) && w < |s.writers| && s.writers[w].Locked?
    ensures NoneFreed(s.slots)
  {
    assert Holds(s.writers[w]);
    forall i | 0 <= i < |s.writers| ensures !s.writers[i].ClosedOld? {
      assert s.writers[i].ClosedOld? ==> Holds(s.writers[i]) && i == w;
    }
  }

  lemma {:induction false} NoHands(n: nat, id: nat)
    ensures InHands(seq(n, _ => Resting), id) == 0
  {
    if n > 0 {
      var all: seq<Writer> := seq(n, _ => Resting);
      assert all[1..] == seq(n - 1, _ => Resting);
      NoHands(n - 1, id);
    }
  }

  lemma {:induction false} RunKeepsLedger(catalog: Catalog, s: State, actions: seq<Action>, id: nat)
    requires Inv(catalog, s) && Ledger(s, id) && Legal(catalog, s, actions)
    ensures Ledger(After(catalog, s, actions), id)
    decreases |actions|
  {
    if actions != [] {
      StepKeepsInv(catalog, s, actions[0]);
      StepKeepsLedger(catalog, s, actions[0], id);
      RunKeepsLedger(catalog, Apply(catalog, s, actions[0]), actions[1..], id);
    }
  }

  predicate NobodyReloads(s: State) {
    forall i :: 0 <= i < |s.writers| ==> s.writers[i].Resting?
  }

  lemma {:induction false} RestingHoldNothing(writers: seq<Writer>, id: nat)
    requires forall i :: 0 <= i < |writers| ==> writers[i].Resting?
    ensures InHands(writers, id) == 0
  {
    if writers != [] {
      RestingHoldNothing(writers[1..], id);
    }
  }

  /** In every run every handle ever opened is in exactly one place, so none is closed
      twice and none is lost. */
  lemma HandlesAreClosedOnce(catalog: Catalog, readers: nat, writers: nat, actions: seq<Action>, id: nat)
    requires Legal(catalog, Init(readers, writers), actions)
    ensures var s := After(catalog, Init(readers, writers), actions);
            && Ledger(s, id)
            && (NobodyReloads(s) ==>
                  Times(s.closed, id) + InSlots(s.slots, id) == if id < s.handles then 1 else 0)
  {
    var s := After(catalog, Init(readers, writers), actions);
    InitInv(catalog, readers, writers);
    NoHands(writers, id);
    RunKeepsLedger(catalog, Init(readers, writers), actions, id);
    if NobodyReloads(s) {
      RestingHoldNothing(s.writers, id);
    }
  }

  function IdOf(c: Cell): seq<nat> {
    if c.Live? then [c.id] else []
  }

  /** The destructor, when the other threads are gone: it closes what the slots hold. */
  function Destroyed(s: State): State {
    s.(closed := s.closed + IdOf(s.slots.country) + IdOf(s.slots.asn) + IdOf(s.slots.city),
       slots := Slots(Freeing(s.slots.country), Freeing(s.slots.asn), Freeing(s.slots.city)))
  }

  lemma ClosingCell(closed: seq<nat>, c: Cell, id: nat)
    ensures Times(closed + IdOf(c), id) == Times(closed, id) + InCell(c, id)
  {
    if c.Live? {
      TimesAppend(closed, c.id, id);
    } else {
      assert closed + IdOf(c) == closed;
    }
  }

  /** The whole life of the handles: after any run and the destructor every handle that was
      ever opened has been closed exactly once, and nothing else has. */
  lemma EveryHandleIsClosedOnce(catalog: Catalog, readers: nat, writers: nat, actions: seq<Action>, id: nat)
    requires Legal(catalog, Init(readers, writers), actions)
    requires NobodyReloads(After(catalog, Init(readers, writers), actions))
    ensures var s := After(catalog, Init(readers, writers), actions);
            Times(Destroyed(s).closed, id) == if id < s.handles then 1 else 0
  {
    var s := After(catalog, Init(readers, writers), actions);
    HandlesAreClosedOnce(catalog, readers, writers, actions, id);
    ClosingCell(s.closed, s.slots.country, id);
    ClosingCell(s.closed + IdOf(s.slots.country), s.slots.asn, id);
    ClosingCell(s.closed + IdOf(s.slots.country) + IdOf(s.slots.asn), s.slots.city, id);
  }

  // ----- one swap on its own -----

  /** The steps of one `open_*` or `reload_*` call. */
  function Swap(w: nat, slot: Slot): seq<Action> {
    [OpenFile(w, slot)] + [TakeLock(w)] + [CloseOld(w)] + [Install(w)] + [Unlock(w)]
  }

  lemma FirstAction(catalog: Catalog, s: State, a: Action, rest: seq<Action>)
    requires s.history != [] && Enabled(s, a) && Legal(catalog, Apply(catalog, s, a), rest)
    ensures Legal(catalog, s, [a] + rest)
    ensures After(catalog, s, [a] + rest) == After(catalog, Apply(catalog, s, a), rest)
  {
    assert ([a] + rest)[1..] == rest;
  }

  /** Undisturbed, the steps of a swap do what `GeoIpDatabases.Open` says: the slot holds the
      new handle, the others are untouched, and the previous handle is closed. */
  lemma SwapIsOpen(catalog: Catalog, s: State, w: nat, slot: Slot)
    requires s.history != [] && w < |s.writers| && s.writers[w].Resting?
    requires NobodyWrites(s) && NobodyReads(s) && NoneFreed(s.slots)
    ensures Legal(catalog, s, Swap(w, slot))
    ensures var t := After(catalog, s, Swap(w, slot));
            var previous := HandleOf(Get(s.slots, slot));
            && (forall x :: HandleOf(Get(t.slots, x))
                            == if x == slot then Some(s.handles) else HandleOf(Get(s.slots, x)))
            && t.closed == (s.closed + if previous.Some? then [previous.value] else [])
            && t.readers == s.readers && t.writers == s.writers && t.infos == s.infos
            && t.history != [] && NoneFreed(t.slots)
  {
    var s1 := Apply(catalog, s, OpenFile(w, slot));
    assert NobodyWrites(s1);
    var s2 := Apply(catalog, s1, TakeLock(w));
    var s3 := Apply(catalog, s2, CloseOld(w));
    var s4 := Apply(catalog, s3, Install(w));
    var s5 := Apply(catalog, s4, Unlock(w));
    SwapEffect(catalog, s, w, slot, s1, s2, s3, s4, s5);
    FiveActions(catalog, s, OpenFile(w, slot), TakeLock(w), CloseOld(w), Install(w), Unlock(w), s1, s2, s3, s4, s5);
  }

  lemma SwapEffect(catalog: Catalog, s: State, w: nat, slot: Slot,
                   s1: State, s2: State, s3: State, s4: State, s5: State)
    requires s.history != [] && w < |s.writers| && s.writers[w].Resting?
    requires NobodyWrites(s) && NobodyReads(s) && NoneFreed(s.slots)
    requires s1 == Apply(catalog, s, OpenFile(w, slot)) && Enabled(s1, TakeLock(w))
    requires s2 == Apply(catalog, s1, TakeLock(w)) && s3 == Apply(catalog, s2, CloseOld(w))
    requires s4 == Apply(catalog, s3, Install(w)) && s5 == Apply(catalog, s4, Unlock(w))
    ensures var previous := HandleOf(Get(s.slots, slot));
            && (forall x :: HandleOf(Get(s5.slots, x))
                            == if x == slot then Some(s.handles) else HandleOf(Get(s.slots, x)))
            && s5.closed == (s.closed + if previous.Some? then [previous.value] else [])
            && s5.readers == s.readers && s5.writers == s.writers && s5.infos == s.infos
            && s5.history != [] && NoneFreed(s5.slots)
  {
    assert s.closed + [] == s.closed;
  }

  lemma FiveActions(catalog: Catalog, s: State, a1: Action, a2: Action, a3: Action, a4: Action, a5: Action,
                    s1: State, s2: State, s3: State, s4: State, s5: State)
    requires s.history != [] && s1.history != [] && s2.history != [] && s3.history != [] && s4.history != []
    requires Enabled(s, a1) && s1 == Apply(catalog, s, a1) && Enabled(s1, a2) && s2 == Apply(catalog, s1, a2)
    requires Enabled(s2, a3) && s3 == Apply(catalog, s2, a3) && Enabled(s3, a4) && s4 == Apply(catalog, s3, a4)
    requires Enabled(s4, a5) && s5 == Apply(catalog, s4, a5)
    ensures Legal(catalog, s, [a1] + [a2] + [a3] + [a4] + [a5])
    ensures After(catalog, s, [a1] + [a2] + [a3] + [a4] + [a5]) == s5
  {
    FirstAction(catalog, s4, a5, []);
    assert [a5] + [] == [a5];
    FirstAction(catalog, s3, a4, [a5]);
    FirstAction(catalog, s2, a3, [a4] + [a5]);
    FirstAction(catalog, s1, a2, [a3] + ([a4] + [a5]));
    FirstAction(catalog, s, a1, [a2] + ([a3] + ([a4] + [a5])));
    assert [a1] + [a2] + [a3] + [a4] + [a5] == [a1] + ([a2] + ([a3] + ([a4] + [a5])));
  }

  // ----- what status snapshots see -----

  /** The open flag of a slot. */
  predicate IsOpen(s: State, slot: Slot) {
    !Get(s.slots, slot).Empty?
  }

  /** The slots open are the configured ones, no thread is loading another, and every
      description so far found metadata exactly for a configured one. */
  ghost predicate OpenExactly(s: State, configured: set<Slot>) {
    && (forall slot :: IsOpen(s, slot) <==> slot in configured)
    && (forall w :: 0 <= w < |s.writers| && (s.writers[w].Opened? || s.writers[w].Locked? || s.writers[w].ClosedOld?)
                    ==> s.writers[w].slot in configured)
    && (forall r :: 0 <= r < |s.readers| && s.readers[r].Describing? && s.readers[r].asked
                    ==> (s.readers[r].handle.Some? <==> s.readers[r].slot in configured))
    && (forall k :: 0 <= k < |s.infos| ==> (s.infos[k].handle.Some? <==> s.infos[k].slot in configured))
  }

  // `reload_databases` opens files for configured databases only.
  predicate ReloadsOnly(actions: seq<Action>, configured: set<Slot>) {
    forall i :: 0 <= i < |actions| && actions[i].OpenFile? ==> actions[i].target in configured
  }

  lemma PutElsewhere(slots: Slots, target: Slot, c: Cell, slot: Slot)
    ensures Get(Put(slots, target, c), slot) == if slot == target then c else Get(slots, slot)
  {
  }

  lemma WritingKeepsOpen(catalog: Catalog, s: State, a: Action, configured: set<Slot>)
    requires s.history != [] && Enabled(s, a) && OpenExactly(s, configured)
    requires a.CloseOld? || a.Install?
    ensures OpenExactly(Apply(catalog, s, a), configured)
  {
    var t := Apply(catalog, s, a);
    var target := s.writers[a.w].slot;
    assert target in configured;
    forall slot ensures IsOpen(t, slot) <==> slot in configured {
      assert IsOpen(s, slot) <==> slot in configured;
      PutElsewhere(s.slots, target, Get(t.slots, target), slot);
    }
  }

  lemma StepKeepsOpen(catalog: Catalog, s: State, a: Action, configured: set<Slot>)
    requires s.history != [] && Enabled(s, a) && OpenExactly(s, configured)
    requires a.OpenFile? ==> a.target in configured
    ensures OpenExactly(Apply(catalog, s, a), configured)
  {
    if a.CloseOld? || a.Install? {
      WritingKeepsOpen(catalog, s, a, configured);
    } else {
      var t := Apply(catalog, s, a);
      assert t.slots == s.slots;
      if a.ReadMetadata? {
        assert IsOpen(s, s.readers[a.r].slot) <==> s.readers[a.r].slot in configured;
      }
      forall slot ensures IsOpen(t, slot) <==> slot in configured {
        assert IsOpen(s, slot) <==> slot in configured;
      }
    }
  }

  lemma {:induction false} RunKeepsOpen(catalog: Catalog, s: State, actions: seq<Action>, configured: set<Slot>)
    requires Legal(catalog, s, actions) && OpenExactly(s, configured) && ReloadsOnly(actions, configured)
    ensures OpenExactly(After(catalog, s, actions), configured)
    decreases |actions|
  {
    if actions != [] {
      StepKeepsOpen(catalog, s, actions[0], configured);
      RunKeepsOpen(catalog, Apply(catalog, s, actions[0]), actions[1..], configured);
    }
  }

  /** `Server::init`: the configured databases opened one after the other by one thread. */
  function Opening(w: nat, slots: seq<Slot>): seq<Action> {
    if slots == [] then [] else Opening(w, slots[..|slots| - 1]) + Swap(w, slots[|slots| - 1])
  }

  lemma LaterActions(catalog: Catalog, s: State, a: seq<Action>)
    requires Legal(catalog, s, a) && a != []
    ensures s.history != [] && Enabled(s, a[0]) && Legal(catalog, Apply(catalog, s, a[0]), a[1..])
    ensures After(catalog, s, a) == After(catalog, Apply(catalog, s, a[0]), a[1..])
  {
  }

  lemma {:induction false} RunConcat(catalog: Catalog, s: State, a: seq<Action>, b: seq<Action>)
    requires Legal(catalog, s, a) && Legal(catalog, After(catalog, s, a), b)
    ensures Legal(catalog, s, a + b) && After(catalog, s, a + b) == After(catalog, After(catalog, s, a), b)
    decreases |a|
  {
    if a == [] {
      NoActions(catalog, s);
      assert a + b == b;
    } else {
      LaterActions(catalog, s, a);
      RunConcat(catalog, Apply(catalog, s, a[0]), a[1..], b);
      HeadAndTail(a, b);
      FirstAction(catalog, s, a[0], a[1..] + b);
    }
  }

  lemma NoActions(catalog: Catalog, s: State)
    ensures After(catalog, s, []) == s
  {
  }

  lemma HeadAndTail(a: seq<Action>, b: seq<Action>)
    requires a != []
    ensures [a[0]] + (a[1..] + b) == a + b
  {
  }

  /** A process in which nobody holds the lock and the thread `w` can open these slots. */
  ghost predicate Quiet(s: State, slots: seq<Slot>) {
    && s.history != [] && NobodyReads(s) && NobodyReloads(s) && NoneFreed(s.slots) && s.infos == []
    && forall slot :: IsOpen(s, slot) <==> slot in slots
  }

  lemma {:induction false} OpeningOpens(catalog: Catalog, readers: nat, writers: nat, w: nat, slots: seq<Slot>)
    requires w < writers
    ensures Legal(catalog, Init(readers, writers), Opening(w, slots))
    ensures var s := After(catalog, Init(readers, writers), Opening(w, slots));
            Quiet(s, slots) && |s.writers| == writers
  {
    if slots != [] {
      var n := |slots| - 1;
      OpeningOpens(catalog, readers, writers, w, slots[..n]);
      var s := After(catalog, Init(readers, writers), Opening(w, slots[..n]));
      OneMoreOpen(catalog, s, w, slots[..n], slots[n]);
      assert slots == slots[..n] + [slots[n]];
      RunConcat(catalog, Init(readers, writers), Opening(w, slots[..n]), Swap(w, slots[n]));
    }
  }

  lemma OneMoreOpen(catalog: Catalog, s: State, w: nat, opened_: seq<Slot>, slot: Slot)
    requires Quiet(s, opened_) && w < |s.writers|
    ensures Legal(catalog, s, Swap(w, slot))
    ensures var t := After(catalog, s, Swap(w, slot));
            Quiet(t, opened_ + [slot]) && |t.writers| == |s.writers|
  {
    assert NobodyWrites(s);
    SwapIsOpen(catalog, s, w, slot);
    var t := After(catalog, s, Swap(w, slot));
    forall x ensures IsOpen(t, x) <==> x in opened_ + [slot] {
      assert IsOpen(s, x) <==> x in opened_;
      assert HandleOf(Get(t.slots, x)).Some? <==> IsOpen(t, x);
    }
  }

  /** Status snapshots: once `init` has opened the configured databases (a legal run, by
      OpeningOpens), with lookups, reloads and metadata reads running in any interleaving, at
      every moment the open flag of a slot is set exactly if it is configured, and every
      metadata read finds metadata exactly for a configured slot - so whichever moments a
      snapshot takes its flags and its metadata from, it shows a database as open exactly if
      it shows its metadata.  No closed handle is read. */
  lemma SnapshotsAreConsistent(catalog: Catalog, readers: nat, writers: nat, slots: seq<Slot>, run: seq<Action>)
    requires writers > 0
    requires Legal(catalog, Init(readers, writers), Opening(0, slots))
    requires Legal(catalog, After(catalog, Init(readers, writers), Opening(0, slots)), run)
    requires ReloadsOnly(run, set slot | slot in slots)
    ensures var t := After(catalog, After(catalog, Init(readers, writers), Opening(0, slots)), run);
            && (forall slot :: IsOpen(t, slot) <==> slot in slots)
            && (forall k :: 0 <= k < |t.infos| ==> (t.infos[k].handle.Some? <==> t.infos[k].slot in slots))
            && !t.usedFreed
  {
    var configured := set slot | slot in slots;
    OpeningOpens(catalog, readers, writers, 0, slots);
    var s := After(catalog, Init(readers, writers), Opening(0, slots));
    assert OpenExactly(s, configured);
    RunKeepsOpen(catalog, s, run, configured);
    InitInv(catalog, readers, writers);
    RunKeepsInv(catalog, Init(readers, writers), Opening(0, slots));
    RunKeepsInv(catalog, s, run);
  }
}
