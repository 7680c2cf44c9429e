/** Runs that fill a partition's first segment with deletes, one acknowledged
    after another, until the next one makes it full. */
module Filling {
  import opened Words
  import opened WalCodec
  import opened WalSegment
  import opened LogFold
  import opened PartitionState
  import opened Disk
  import opened StoreOps
  import opened Recovery
  import opened Directory
  import opened Serving
  import opened Opening
  import opened Durability
  import opened System
  import opened Runs
  import opened Orderliness
  import opened Smooth

  /** The operation id of the `i`-th delete. */
  function IdOf(i: nat): OpId {
    ToLe(i, 8) + seq(8, _ => 0)
  }

  lemma IdsDiffer(i: nat, j: nat)
    requires i != j && i < 0x1_0000_0000_0000_0000 && j < 0x1_0000_0000_0000_0000
    ensures IdOf(i) != IdOf(j)
  {
    Widths();
    FromLeToLe(i, 8);
    FromLeToLe(j, 8);
    assert IdOf(i)[..8] == ToLe(i, 8) && IdOf(j)[..8] == ToLe(j, 8);
  }

  function Nth(i: nat, key: Bytes): Entry {
    Entry(i + 1, IdOf(i), Operation.Delete(key))
  }

  function Deletes(n: nat, key: Bytes): (r: seq<Entry>)
    ensures |r| == n && forall i :: 0 <= i < n ==> r[i] == Nth(i, key)
  {
    seq(n, i requires 0 <= i < n => Nth(i, key))
  }

  /** A segment file with the first `n` deletes, durable as it stands. */
  function Filled(n: nat, key: Bytes): SegFile {
    Whole(1, Deletes(n, key), [], n, true, true)
  }

  /** `n` deletes have been acknowledged, all in the first segment. */
  ghost predicate Holding(cfg: Config, key: Bytes, n: nat, s: Sys) {
    && Calm(cfg, s) && s.server.Some? && s.disk == Disk([Filled(n, key)], [], map[], map[])
    && s.log == Deletes(n, key) && s.acked == n && n < 0x1_0000_0000
    && s.server.value.wal == Writer(1, |FileBytes(cfg.crc, cfg.id, Filled(n, key))|, n + 1, false)
    && s.server.value.snapHigh == 0
  }

  function Length(cfg: Config, key: Bytes, n: nat): nat {
    |FileBytes(cfg.crc, cfg.id, Filled(n, key))|
  }

  lemma DeletesGrow(n: nat, key: Bytes)
    ensures Deletes(n + 1, key) == Deletes(n, key) + [Nth(n, key)]
  {
  }

  lemma LengthGrows(cfg: Config, key: Bytes, n: nat)
    requires KeyOk(key)
    ensures Length(cfg, key, n) + 36 <= Length(cfg, key, n + 1) == Length(cfg, key, n) + |FrameOf(cfg.crc, Nth(n, key))|
  {
    hide FrameOf, Frames, HeaderOf;
    DeletesGrow(n, key);
    LongerFile(cfg, Filled(n, key), Nth(n, key));
    SameBytes(cfg, Filled(n + 1, key), Whole(1, Deletes(n, key) + [Nth(n, key)], [], n, false, true));
    DeleteFrame(cfg.crc, n, key);
  }

  lemma SameBytes(cfg: Config, f: SegFile, g: SegFile)
    requires f.Whole? && g.Whole? && f.first == g.first && f.entries == g.entries && f.tail == g.tail
    ensures FileBytes(cfg.crc, cfg.id, f) == FileBytes(cfg.crc, cfg.id, g)
  {
  }

  lemma DeleteFrame(crc: Checksum, n: nat, key: Bytes)
    requires KeyOk(key)
    ensures 36 <= |FrameOf(crc, Nth(n, key))| == 35 + |key| <= 4096
  {
  }

  lemma EmptyLength(cfg: Config, key: Bytes)
    ensures Length(cfg, key, 0) == HEADER_LEN
  {
  }

  /** A segment below the rotation size holds few deletes. */
  lemma {:induction false} FewDeletes(cfg: Config, key: Bytes, n: nat)
    requires KeyOk(key)
    ensures Length(cfg, key, n) >= HEADER_LEN + 36 * n
    ensures Length(cfg, key, n) < ROTATE_BYTES ==> n + 1 < 0x1_0000_0000
  {
    hide Length;
    if n == 0 {
      EmptyLength(cfg, key);
    } else {
      FewDeletes(cfg, key, n - 1);
      LengthGrows(cfg, key, n - 1);
    }
  }

  /** No id of the first `n` deletes is the next one's. */
  lemma FreshId(cfg: Config, base: Logical, key: Bytes, n: nat, s: Sys)
    requires Inv(cfg, base, s) && s.server.Some? && !s.server.value.wal.poisoned
    requires s.log == Deletes(n, key) && n < 0x1_0000_0000
    ensures Lookup(s.server.value.mem.window, IdOf(n)).None?
  {
    hide Inv, FileBytes, Lookup, LastN, ToLe;
    WindowIsTheLogsEnd(cfg, base, s);
    ServedHigh(cfg, base, s);
    assert s.log[..n] == s.log;
    var w := s.server.value.mem.window;
    LookupInWindow(w, IdOf(n));
    forall i | 0 <= i < |w|
      ensures w[i].0 != IdOf(n)
    {
      LastOps(s.log, cfg.capacity, i);
      IdsDiffer(n - |w| + i, n);
    }
  }

  lemma ServedHigh(cfg: Config, base: Logical, s: Sys)
    requires Inv(cfg, base, s) && s.server.Some? && !s.server.value.wal.poisoned
    ensures s.server.value.mem.high == |s.log| && s.disk.segs != []
  {
    hide MemOk, DiskInv, LogOk, FileBytes;
  }

  /** A delete whose id is new, on a directory with one small segment. */
  lemma DeleteInPlace(cfg: Config, d: Disk, s: Server, key: Bytes, n: nat, f: SegFile, fault: Fault)
    requires d.segs == [f] && KeyOk(key) && (fault.NoFault? || fault.SyncFails?) && f.Whole? && f.tail == []
    requires !s.wal.poisoned && s.wal.nextSeq == n + 1 && s.wal.bytes < ROTATE_BYTES
             && Lookup(s.mem.window, IdOf(n)).None?
    ensures var o := StoreOps.Delete(cfg, d, s, IdOf(n), key, fault);
            var entries := f.entries + [Nth(n, key)];
            && o.disk == d.(segs := [Whole(f.first, entries, [], if fault.NoFault? then |entries| else f.synced,
                                           fault.NoFault?, f.linked)])
            && o.server.wal == s.wal.(bytes := s.wal.bytes + |FrameOf(cfg.crc, Nth(n, key))|, nextSeq := n + 2,
                                      poisoned := !fault.NoFault?)
            && o.server.snapHigh == s.snapHigh
            && (fault.NoFault? ==> o.result == Ok(Reply(n + 1, false)))
               && (fault.SyncFails? ==> o.result == Err(IoFailed))
  {
    hide FrameOf, Lookup, ApplyMem;
  }

  lemma GrownByOne(log: seq<Entry>, f: SegFile, e: Entry)
    requires f.Whole? && f.entries == log + [e] && f.first == 1
    ensures Grown(log, [f]) == log + [e]
  {
  }

  lemma DeleteStep(cfg: Config, base: Logical, key: Bytes, n: nat, s: Sys, fault: Fault)
    requires Inv(cfg, base, s) && Holding(cfg, key, n, s) && KeyOk(key) && (fault.NoFault? || fault.SyncFails?)
    requires Length(cfg, key, n) < ROTATE_BYTES
    ensures Enabled(cfg, s, DeleteBy(IdOf(n), key, fault))
    ensures var t := Step(cfg, s, DeleteBy(IdOf(n), key, fault));
            && t.disk == Disk([Whole(1, Deletes(n + 1, key), [], if fault.NoFault? then n + 1 else n,
                                     fault.NoFault?, true)],
                              [], map[], map[])
            && t.log == Deletes(n + 1, key) && t.acked == (if fault.NoFault? then n + 1 else n) && t.server.Some?
            && t.server.value.wal == Writer(1, Length(cfg, key, n + 1), n + 2, !fault.NoFault?)
            && t.server.value.snapHigh == 0
  {
    hide Calm, FrameOf, FileBytes, Inv, Lookup, Mutate, Grown;
    FreshId(cfg, base, key, n, s);
    DeleteInPlace(cfg, s.disk, s.server.value, key, n, Filled(n, key), fault);
    DeletesGrow(n, key);
    LengthGrows(cfg, key, n);
    GrownByOne(s.log, Whole(1, Deletes(n + 1, key), [], if fault.NoFault? then n + 1 else n, fault.NoFault?, true),
               Nth(n, key));
  }

  /** One more acknowledged delete. */
  lemma HoldOneMore(cfg: Config, base: Logical, key: Bytes, n: nat, s: Sys)
    requires Inv(cfg, base, s) && Holding(cfg, key, n, s) && KeyOk(key)
    requires Length(cfg, key, n) < ROTATE_BYTES && n + 1 < 0x1_0000_0000
    ensures Enabled(cfg, s, DeleteBy(IdOf(n), key, NoFault))
    ensures var t := Step(cfg, s, DeleteBy(IdOf(n), key, NoFault));
            Inv(cfg, base, t) && Holding(cfg, key, n + 1, t)
  {
    hide Inv, Calm, Step, Enabled, FileBytes;
    var a := DeleteBy(IdOf(n), key, NoFault);
    DeleteStep(cfg, base, key, n, s, NoFault);
    EveryStep(cfg, base, s, a);
    CalmStep(cfg, base, s, a);
  }

  /** After `room` more deletes the next one makes the first segment full. */
  ghost predicate Brimming(cfg: Config, key: Bytes, room: nat, n: nat, s: Sys) {
    Holding(cfg, key, n, s) && Length(cfg, key, n + room) < ROTATE_BYTES <= Length(cfg, key, n + room + 1)
  }

  lemma {:induction false} LengthMono(cfg: Config, key: Bytes, n: nat, m: nat)
    requires KeyOk(key) && n <= m
    ensures Length(cfg, key, n) <= Length(cfg, key, m)
    decreases m
  {
    hide Length;
    if n < m {
      LengthMono(cfg, key, n, m - 1);
      LengthGrows(cfg, key, m - 1);
    }
  }

  lemma RunOneMore(cfg: Config, states: seq<Sys>, actions: seq<Action>, a: Action, t: Sys)
    requires Run(cfg, states, actions) && Follows(cfg, states[|actions|], a, t)
    ensures Run(cfg, states + [t], actions + [a])
  {
    hide Follows;
    var states', actions' := states + [t], actions + [a];
    forall i | 0 <= i < |actions'|
      ensures Follows(cfg, states'[i], actions'[i], states'[i + 1])
    {
      if i < |actions| {
        assert Follows(cfg, states[i], actions[i], states[i + 1]);
      }
    }
  }

  /** Deletes until the segment brims. */
  lemma {:induction false} FillFrom(cfg: Config, key: Bytes, room: nat, n: nat, states: seq<Sys>, actions: seq<Action>)
    returns (m: nat, states': seq<Sys>, actions': seq<Action>)
    requires KeyOk(key) && Run(cfg, states, actions) && Inv(cfg, EMPTY, states[|actions|])
    requires Holding(cfg, key, n, states[|actions|]) && Length(cfg, key, n + room) < ROTATE_BYTES
    requires forall i :: 0 <= i < |actions| ==> NoFaults(actions[i])
    ensures Run(cfg, states', actions') && states'[0] == states[0] && Inv(cfg, EMPTY, states'[|actions'|])
    ensures Brimming(cfg, key, room, m, states'[|actions'|])
    ensures forall i :: 0 <= i < |actions'| ==> NoFaults(actions'[i])
    decreases ROTATE_BYTES - Length(cfg, key, n + room)
  {
    hide Inv, Holding, Step, Enabled, Run, Length;
    LengthGrows(cfg, key, n + room);
    if Length(cfg, key, n + room + 1) >= ROTATE_BYTES {
      m, states', actions' := n, states, actions;
      RunShape(cfg, states, actions);
    } else {
      RunShape(cfg, states, actions);
      var s := states[|actions|];
      LengthMono(cfg, key, n, n + room);
      FewDeletes(cfg, key, n);
      HoldOneMore(cfg, EMPTY, key, n, s);
      var a := DeleteBy(IdOf(n), key, NoFault);
      var t := Step(cfg, s, a);
      RunOneMore(cfg, states, actions, a, t);
      m, states', actions' := FillFrom(cfg, key, room, n + 1, states + [t], actions + [a]);
    }
  }

  lemma RunShape(cfg: Config, states: seq<Sys>, actions: seq<Action>)
    requires Run(cfg, states, actions)
    ensures |states| == |actions| + 1
  {
  }

  /** A partition just created. */
  function Fresh(linked: bool): Sys {
    Sys(Disk([Whole(1, [], [], 0, true, linked)], [], map[], map[]),
        if linked then Some(Server(EMPTY_MEM, Writer(1, HEADER_LEN, 1, false), 0, [])) else None, [], 0)
  }

  lemma FreshCreated(cfg: Config)
    requires ConfigOk(cfg) && !cfg.baseSnapshot
    ensures Created(cfg, [], [], None, SnapDone, Fresh(true))
            && Created(cfg, [], [], Some(NotLinked), SnapDone, Fresh(false))
  {
    assert LinkAll([]) == [];
    assert [] + [Whole(1, [], [], 0, true, true)] == [Whole(1, [], [], 0, true, true)];
    assert [] + [Whole(1, [], [], 0, true, false)] == [Whole(1, [], [], 0, true, false)];
  }

  lemma FreshHolding(cfg: Config, key: Bytes)
    requires ConfigOk(cfg) && !cfg.baseSnapshot
    ensures Holding(cfg, key, 0, Fresh(true)) && Inv(cfg, EMPTY, Fresh(true))
  {
    hide Inv, Calm, FileBytes;
    FreshCreated(cfg);
    CreatedCalm(cfg, [], [], Fresh(true));
    CreatedInv(cfg, [], [], None, SnapDone, Fresh(true));
    EmptyLength(cfg, key);
    assert Deletes(0, key) == [];
  }

  /** A run that fills the first segment but for `room` deletes and the one that
      makes it full, everything acknowledged. */
  lemma Fill(cfg: Config, key: Bytes, room: nat) returns (n: nat, states: seq<Sys>, actions: seq<Action>)
    requires ConfigOk(cfg) && !cfg.baseSnapshot && KeyOk(key) && Length(cfg, key, room) < ROTATE_BYTES
    ensures Run(cfg, states, actions) && states[0] == Fresh(true) && Inv(cfg, EMPTY, states[|actions|])
    ensures Brimming(cfg, key, room, n, states[|actions|])
    ensures forall i :: 0 <= i < |actions| ==> NoFaults(actions[i])
  {
    hide Inv, Holding, Length, Follows;
    FreshHolding(cfg, key);
    n, states, actions := FillFrom(cfg, key, room, 0, [Fresh(true)], []);
  }
}
