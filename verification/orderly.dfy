/** Directories in order: every segment but the newest is durable as it stands,
    and everything before the newest is durably held. Operations and power
    losses keep a directory in order, and it opens exactly when the bytes a
    power loss left behind the newest segment's entries hide no frame. */
module Orderliness {
  import opened Words
  import opened WalCodec
  import opened WalSegment
  import opened LogFold
  import opened PartitionState
  import opened Disk
  import opened StoreOps
  import opened Recovery
  import opened Directory
  import opened Serving
  import opened Upkeep
  import opened Opening
  import opened Durability
  import opened Reopening

  /** Durable as it stands, by content and by name. */
  predicate Sealed(f: SegFile) {
    f.Whole? && f.settled && f.linked
  }

  /** No power loss takes the file or its header. */
  predicate Firm(f: SegFile) {
    f.Whole? && f.linked && f.synced >= 0
  }

  /** Sequence the segments are sure to reach after a power loss. */
  function SureEnd(d: Disk): int {
    if d.segs == [] then 0
    else NewestSeg(d).first - 1 + if Firm(NewestSeg(d)) then NewestSeg(d).synced else 0
  }

  /** A newest segment a power loss may take: it holds nothing yet and follows
      the one before it. */
  predicate Blank(segs: seq<SegFile>)
    requires segs != []
  {
    var last := |segs| - 1;
    && (segs[last].Whole? ==> segs[last].entries == [] && segs[last].tail == [])
    && segs[last].first == if last == 0 then 1 else EndOf(segs[last - 1]) + 1
  }

  /** Removed files whose removal is not durable lie before the segments. */
  ghost predicate LimboOk(d: Disk) {
    && (forall i :: 0 <= i < |d.limbo| ==> d.limbo[i].Whole? && d.limbo[i].settled)
    && (forall i, j :: 0 <= i < |d.limbo| && 0 <= j < |d.segs| ==> d.limbo[i].first < d.segs[j].first)
    && (d.segs == [] ==> d.limbo == [])
  }

  /** No snapshot is ahead of what the segments are sure to reach. */
  ghost predicate SnapsSure(d: Disk) {
    && (forall h :: h in d.snaps && d.snaps[h].good ==> h <= SureEnd(d))
    && (forall h :: h in d.before && d.before[h].Some? && d.before[h].value.good ==> h <= SureEnd(d))
  }

  ghost predicate SegsOrderly(cfg: Config, d: Disk) {
    && Ascending(d.segs) && (forall i :: 0 <= i < |d.segs| ==> 1 <= d.segs[i].first)
    && (forall i :: 0 <= i < |d.segs| - 1 ==> Sealed(d.segs[i]))
    && (if d.segs == [] then DurablyHeld(cfg, d, 0)
        else DurablyHeld(cfg, d, NewestSeg(d).first - 1) && (Firm(NewestSeg(d)) || Blank(d.segs)))
  }

  ghost predicate InOrder(cfg: Config, d: Disk) {
    SegsOrderly(cfg, d) && LimboOk(d) && SnapsSure(d)
  }

  /** A header-less file was removed last, and its removal is not durable. */
  predicate Husky(d: Disk) {
    d.limbo != [] && d.limbo[|d.limbo| - 1].Headless?
  }

  function Husked(d: Disk): Disk
    requires Husky(d)
  {
    d.(limbo := d.limbo[..|d.limbo| - 1])
  }

  /** The directory as it would be had the file not been removed. */
  function Unremoved(d: Disk): Disk
    requires Husky(d)
  {
    var f := d.limbo[|d.limbo| - 1];
    Husked(d).(segs := d.segs + [Headless(f.first, f.junk, false)])
  }

  /** In order, whether or not the removal of a header-less file lasts. */
  ghost predicate Orderly(cfg: Config, d: Disk) {
    if Husky(d) then InOrder(cfg, Husked(d)) && InOrder(cfg, Unremoved(d)) else InOrder(cfg, d)
  }

  /** All before the newest segment stays durably held without the snapshot of
      `h`. */
  ghost predicate GroundWithout(cfg: Config, d: Disk, h: nat) {
    if d.segs == [] then HeldWithout(cfg, d, h, 0)
    else NewestSeg(d).first >= 1 && HeldWithout(cfg, d, h, NewestSeg(d).first - 1)
  }

  /** So it does whether or not the removal of a header-less file lasts. */
  ghost predicate Spares(cfg: Config, d: Disk, h: nat) {
    if Husky(d) then GroundWithout(cfg, Husked(d), h) && GroundWithout(cfg, Unremoved(d), h)
    else GroundWithout(cfg, d, h)
  }

  lemma DamagedOrder(cfg: Config, d: Disk, h: nat)
    requires h in d.snaps && InOrder(cfg, d)
    ensures InOrder(cfg, Damaged(d, h)) <==> GroundWithout(cfg, d, h)
  {
    hide DurablyHeld, HeldWithout;
    if d.segs == [] {
      DamagedHeld(cfg, d, h, 0);
    } else if NewestSeg(d).first >= 1 {
      DamagedHeld(cfg, d, h, NewestSeg(d).first - 1);
    }
  }

  /** Damage to a snapshot leaves a directory in order in order exactly when it
      spares what the segments stand on. */
  lemma DamageExactly(cfg: Config, d: Disk, h: nat)
    requires h in d.snaps && Orderly(cfg, d)
    ensures Orderly(cfg, Damaged(d, h)) <==> Spares(cfg, d, h)
  {
    hide InOrder, GroundWithout;
    if Husky(d) {
      DamagedOrder(cfg, Husked(d), h);
      DamagedOrder(cfg, Unremoved(d), h);
      assert Husked(Damaged(d, h)) == Damaged(Husked(d), h) && Unremoved(Damaged(d, h)) == Damaged(Unremoved(d), h);
    } else {
      DamagedOrder(cfg, d, h);
    }
  }

  // ----- when a directory in order opens

  /** Behind its entries the newest segment has no bytes in which a valid frame
      starts later. */
  predicate NoHiddenFrame(cfg: Config, d: Disk) {
    d.segs == [] || NewestSeg(d).Headless? || NewestSeg(d).tail == []
    || NextValidFrame(cfg.crc, NewestSeg(d).tail, 1).None?
  }

  /** The torn-tail scan looks only at the bytes behind the entries. */
  lemma ScanShifts(crc: Checksum, b: Bytes, at: nat, tail: Bytes)
    requires at <= |b| && b[at..] == tail && tail != []
    ensures NextValidFrame(crc, b, at + 1).None? <==> NextValidFrame(crc, tail, 1).None?
  {
    hide FrameValid;
    var far, near := NextValidFrame(crc, b, at + 1), NextValidFrame(crc, tail, 1);
    if far.Some? {
      assert b[far.value..] == tail[far.value - at..];
      assert FrameValid(crc, tail[far.value - at..]);
    }
    if near.Some? {
      assert b[at + near.value..] == tail[near.value..];
      assert FrameValid(crc, b[at + near.value..]);
    }
  }

  lemma ReadsExactly(cfg: Config, f: SegFile)
    requires FileOk(cfg.crc, f)
    ensures ReadFile(cfg.crc, cfg.id, f, true).Ok?
       <==> f.Headless? || f.tail == [] || NextValidFrame(cfg.crc, f.tail, 1).None?
  {
    hide Frames, HeaderOf, DecodeHeader, ParseEntry, NextValidFrame, FrameValid;
    if f.Headless? {
      HeadlessRead(cfg.crc, cfg.id, f.first, f.junk, true);
    } else {
      ReadImage(cfg.crc, cfg.id, f.first, f.entries, f.tail, true);
      var b := FileBytes(cfg.crc, cfg.id, f);
      var at := HEADER_LEN + |Frames(cfg.crc, f.entries)|;
      assert b[at..] == f.tail;
      if f.tail != [] {
        ScanShifts(cfg.crc, b, at, f.tail);
      }
    }
  }

  lemma SealedFileReads(cfg: Config, log: seq<Entry>, f: SegFile)
    requires SegIn(cfg, log, f) && Sealed(f)
    ensures ReadFile(cfg.crc, cfg.id, f, false).Ok?
  {
    hide Frames, HeaderOf, ReadSegment;
    WholeSegment(cfg.crc, cfg.id, f.first, f.entries, false);
    assert FileBytes(cfg.crc, cfg.id, f) == HeaderOf(cfg.id, f.first) + Frames(cfg.crc, f.entries);
  }

  lemma OrderlyReads(cfg: Config, log: seq<Entry>, d: Disk)
    requires FilesOk(cfg, log, d) && InOrder(cfg, d)
    ensures AllRead(cfg, d.segs, 0) <==> NoHiddenFrame(cfg, d)
  {
    hide FilesOk, ReadFile, SegIn, Sealed, SnapsSure, LimboOk, DurablyHeld, Firm, Blank, NextValidFrame;
    SegsOf(cfg, log, d);
    forall j | 0 <= j < |d.segs| - 1
      ensures ReadFile(cfg.crc, cfg.id, d.segs[j], false).Ok?
    {
      SealedFileReads(cfg, log, d.segs[j]);
    }
    if d.segs != [] {
      IsFile(cfg, log, NewestSeg(d));
      ReadsExactly(cfg, NewestSeg(d));
    }
  }

  /** The files of a directory in order hold the log to their end. */
  lemma OrderlyHolds(cfg: Config, log: seq<Entry>, d: Disk)
    requires FilesOk(cfg, log, d) && InOrder(cfg, d)
    ensures SureEnd(d) <= End(d.segs) && 0 <= End(d.segs) && Held(cfg, d, End(d.segs))
  {
    hide FilesOk, DurablyHeld, LimboOk, Ascending, SnapsSure, Held, Apart;
    SegsOf(cfg, log, d);
    if d.segs == [] {
      DurablyHeldIsHeld(cfg, log, d, 0);
    } else {
      var m := NewestSeg(d);
      var last := |d.segs| - 1;
      assert SegIn(cfg, log, d.segs[last]);
      DurablyHeldIsHeld(cfg, log, d, m.first - 1);
      if m.Whole? {
        EndIs(d.segs, last);
        NewestHolds(cfg, d);
      } else if last > 0 {
        EndIs(d.segs, last - 1);
      }
    }
  }

  lemma NewestHolds(cfg: Config, d: Disk)
    requires d.segs != [] && NewestSeg(d).Whole? && NewestSeg(d).first >= 1 && Held(cfg, d, NewestSeg(d).first - 1)
    ensures Held(cfg, d, EndOf(NewestSeg(d)))
  {
    hide Point;
    var m := NewestSeg(d);
    var h: nat :| Point(cfg, d, h) && HeldFrom(d.segs, h, m.first - 1);
    forall s: nat | h < s <= EndOf(m)
      ensures InFiles(d.segs, s)
    {
      if s >= m.first {
        assert Holds(d.segs[|d.segs| - 1], s);
      }
    }
    assert HeldFrom(d.segs, h, EndOf(m));
  }

  lemma StartSure(cfg: Config, log: seq<Entry>, d: Disk)
    requires SnapsSure(d) && SureEnd(d) >= 0
    ensures 0 <= StartHigh(d) <= SureEnd(d)
  {
  }

  /** A directory in order opens exactly when no frame is hidden. */
  lemma OrderlyOpens(cfg: Config, base: Logical, log: seq<Entry>, d: Disk)
    requires DiskInv(cfg, base, log, d) && InOrder(cfg, d)
    ensures Openable(cfg, d) <==> NoHiddenFrame(cfg, d)
  {
    hide FilesOk, SnapsOk, SegsOrderly, LimboOk, Openable, StartHigh, AllRead, Held, End, NoHiddenFrame, SnapsSure,
         SureEnd;
    OrderlyReads(cfg, log, d);
    OrderlyHolds(cfg, log, d);
    SureNotNegative(cfg, d);
    StartSure(cfg, log, d);
    HeldOpens(cfg, log, d);
  }

  lemma SureNotNegative(cfg: Config, d: Disk)
    requires SegsOrderly(cfg, d)
    ensures SureEnd(d) >= 0
  {
    hide DurablyHeld, Ascending;
  }

  // ----- changes that keep the order

  lemma SameOrder(cfg: Config, d: Disk, d': Disk)
    requires InOrder(cfg, d) && d'.segs == d.segs && d'.limbo == d.limbo && KeepsDurable(cfg, d, d') && SnapsSure(d')
    ensures InOrder(cfg, d')
  {
    hide DurablyHeld, KeepsDurable, Ascending, SnapsSure, LimboOk;
    if d.segs == [] {
      HeldKept(cfg, d, d', 0);
    } else {
      HeldKept(cfg, d, d', NewestSeg(d).first - 1);
    }
    assert LimboOk(d') by { SameLimbo(d, d'); }
  }

  lemma SameLimbo(d: Disk, d': Disk)
    requires LimboOk(d) && d'.segs == d.segs && d'.limbo == d.limbo
    ensures LimboOk(d')
  {
  }

  /** Writing to, cutting or syncing the newest segment. */
  lemma SetNewestOrder(cfg: Config, d: Disk, f: SegFile)
    requires InOrder(cfg, d) && d.segs != [] && Firm(NewestSeg(d)) && Firm(f)
    requires f.first == NewestSeg(d).first && f.synced >= NewestSeg(d).synced
    ensures InOrder(cfg, SetNewest(d, f))
  {
    hide DurablyHeld, KeepsDurable;
    SetNewestKeeps(cfg, d, f);
    HeldKept(cfg, d, SetNewest(d, f), f.first - 1);
  }

  lemma LinkAllOrder(cfg: Config, d: Disk)
    requires InOrder(cfg, d)
    ensures InOrder(cfg, d.(segs := LinkAll(d.segs), limbo := []))
  {
    hide DurablyHeld, KeepsDurable;
    var d' := d.(segs := LinkAll(d.segs), limbo := []);
    LinkAllKeeps(cfg, d);
    if d.segs == [] {
      HeldKept(cfg, d, d', 0);
    } else {
      HeldKept(cfg, d, d', NewestSeg(d).first - 1);
    }
  }

  /** Everything is durably held up to the end of a sealed newest segment. */
  lemma SealedHolds(cfg: Config, log: seq<Entry>, d: Disk)
    requires FilesOk(cfg, log, d) && d.segs != [] && Sealed(NewestSeg(d)) && NewestSeg(d).first >= 1
    requires DurablyHeld(cfg, d, NewestSeg(d).first - 1)
    ensures DurablyHeld(cfg, d, EndOf(NewestSeg(d))) && NewestSeg(d).synced == |NewestSeg(d).entries|
  {
    hide FilesOk, DurablePoint;
    SegsOf(cfg, log, d);
    var m := NewestSeg(d);
    assert SegIn(cfg, log, m);
    var h: nat :| DurablePoint(cfg, d, h) && DurableFrom(d.segs, h, m.first - 1);
    forall s: nat | h < s <= EndOf(m)
      ensures DurablyIn(d.segs, s)
    {
      if s >= m.first {
        assert Secures(d.segs[|d.segs| - 1], s);
      }
    }
    assert DurableFrom(d.segs, h, EndOf(m));
  }

  /** Every segment, the newest included, is durable as it stands. */
  ghost predicate AllSealed(cfg: Config, d: Disk) {
    InOrder(cfg, d) && (d.segs != [] ==> Sealed(NewestSeg(d)) && NewestSeg(d).synced == |NewestSeg(d).entries|)
  }

  /** A segment for the next entry, however far creating it comes. */
  lemma CreateOrder(cfg: Config, log: seq<Entry>, d: Disk, first: nat, made: Option<Made>)
    requires FilesOk(cfg, log, d) && AllSealed(cfg, d)
    requires first == if d.segs == [] then 1 else EndOf(NewestSeg(d)) + 1
    requires d.segs != [] ==> NewestSeg(d).first < first
    ensures InOrder(cfg, Create(cfg, d, first, made))
    ensures made.None? ==> Firm(NewestSeg(Create(cfg, d, first, made)))
  {
    hide FilesOk, DurablyHeld, HeaderOf, KeepsDurable, SegsOrderly, LimboOk, SnapsSure;
    if d.segs != [] {
      OrderlyParts(cfg, d);
      SealedHolds(cfg, log, d);
    }
    match made
    case None => WithSegmentOrder(cfg, d, first);
    case Some(NotReopened) => WithSegmentOrder(cfg, d, first);
    case Some(NoFile) =>
    case Some(PartHeader(k)) =>
      AddOrder(cfg, d, Headless(first, HeaderOf(cfg.id, first)[..if k < HEADER_LEN then k else 0], false));
    case Some(HeaderUnsynced) => AddOrder(cfg, d, Whole(first, [], [], -1, false, false));
    case Some(NotLinked) => AddOrder(cfg, d, Whole(first, [], [], 0, true, false));
  }

  lemma OrderlyParts(cfg: Config, d: Disk)
    requires SegsOrderly(cfg, d)
    ensures d.segs != [] ==> NewestSeg(d).first >= 1 && DurablyHeld(cfg, d, NewestSeg(d).first - 1)
    ensures d.segs == [] ==> DurablyHeld(cfg, d, 0)
  {
    hide DurablyHeld, Ascending;
  }

  /** A file for the next entry, still empty. */
  ghost predicate NextFile(cfg: Config, d: Disk, f: SegFile) {
    && EntriesOf(f) == [] && (f.Whole? ==> f.tail == [] && (f.synced == 0 || !Firm(f)))
    && f.first == (if d.segs == [] then 1 else EndOf(NewestSeg(d)) + 1)
    && (d.segs != [] ==> NewestSeg(d).first < f.first && DurablyHeld(cfg, d, EndOf(NewestSeg(d))))
  }

  lemma AddOrder(cfg: Config, d: Disk, f: SegFile)
    requires AllSealed(cfg, d) && NextFile(cfg, d, f)
    ensures InOrder(cfg, d.(segs := d.segs + [f]))
  {
    hide SegsOrderly, LimboOk, SnapsSure, Sealed, NextFile;
    AddSegs(cfg, d, f);
    AddLimbo(cfg, d, f);
    AddSure(cfg, d, f);
  }

  lemma AddSegs(cfg: Config, d: Disk, f: SegFile)
    requires AllSealed(cfg, d) && NextFile(cfg, d, f)
    ensures SegsOrderly(cfg, d.(segs := d.segs + [f]))
  {
    hide DurablyHeld, KeepsDurable, LimboOk, SnapsSure;
    var d' := d.(segs := d.segs + [f]);
    ImprovedKeeps(cfg, d, d');
    HeldKept(cfg, d, d', f.first - 1);
    AddAscends(d.segs, f);
    forall i | 0 <= i < |d.segs|
      ensures Sealed(d'.segs[i])
    {
      assert d'.segs[i] == d.segs[i];
    }
    assert forall i :: 0 <= i < |d'.segs| ==> 1 <= d'.segs[i].first;
  }

  lemma AddAscends(segs: seq<SegFile>, f: SegFile)
    requires Ascending(segs) && (segs != [] ==> segs[|segs| - 1].first < f.first)
    ensures Ascending(segs + [f])
  {
  }

  lemma AddLimbo(cfg: Config, d: Disk, f: SegFile)
    requires AllSealed(cfg, d) && NextFile(cfg, d, f)
    ensures LimboOk(d.(segs := d.segs + [f]))
  {
    hide DurablyHeld, SnapsSure;
    var d' := d.(segs := d.segs + [f]);
    forall i, j | 0 <= i < |d'.limbo| && 0 <= j < |d'.segs|
      ensures d'.limbo[i].first < d'.segs[j].first
    {
      assert d.limbo[i].first < d.segs[if j < |d.segs| then j else |d.segs| - 1].first;
    }
  }

  lemma AddSure(cfg: Config, d: Disk, f: SegFile)
    requires AllSealed(cfg, d) && NextFile(cfg, d, f)
    ensures SnapsSure(d.(segs := d.segs + [f]))
  {
    hide DurablyHeld, LimboOk, Ascending, Blank;
    assert NewestSeg(d.(segs := d.segs + [f])) == f;
    assert SureEnd(d.(segs := d.segs + [f])) == SureEnd(d);
  }

  lemma WithSegmentOrder(cfg: Config, d: Disk, first: nat)
    requires AllSealed(cfg, d)
    requires first == if d.segs == [] then 1 else EndOf(NewestSeg(d)) + 1
    requires d.segs != [] ==> NewestSeg(d).first < first && DurablyHeld(cfg, d, EndOf(NewestSeg(d)))
    ensures InOrder(cfg, WithSegment(d, first)) && Firm(NewestSeg(WithSegment(d, first)))
  {
    hide DurablyHeld, KeepsDurable, SegsOrderly, LimboOk, SnapsSure;
    var linked := d.(segs := LinkAll(d.segs), limbo := []);
    LinkAllOrder(cfg, d);
    LinkAllKeeps(cfg, d);
    if d.segs != [] {
      HeldKept(cfg, d, linked, EndOf(NewestSeg(d)));
    }
    AddOrder(cfg, linked, Whole(first, [], [], 0, true, true));
    assert LinkAll(d.segs) + [Whole(first, [], [], 0, true, true)] == WithSegment(d, first).segs;
  }

  /** Writing a snapshot the segments are sure to reach. */
  lemma SnapOrder(cfg: Config, d: Disk, m: Mem, fault: SnapFault)
    requires InOrder(cfg, d) && m.high <= SureEnd(d)
    ensures InOrder(cfg, WriteSnap(d, m, fault))
  {
    hide DurablyHeld, KeepsDurable, SegsOrderly, LimboOk;
    var d' := WriteSnap(d, m, fault);
    WriteSnapKeeps(cfg, d, m, fault);
    SameOrder(cfg, d, d');
  }

  /** Dropping segments before the newest, when what is before the newest stays
      durably held. */
  lemma DropOrder(cfg: Config, d: Disk, k: nat, d': Disk)
    requires InOrder(cfg, d) && k < |d.segs| && (k == |d.segs| - 1 ==> Firm(NewestSeg(d)))
    requires d'.snaps == d.snaps && d'.before == d.before
    requires d'.segs == d.segs[k..] && d'.limbo == d.limbo + d.segs[..k]
    requires DurablyHeld(cfg, d', NewestSeg(d).first - 1)
    ensures InOrder(cfg, d')
  {
    hide DurablyHeld, LimboOk, SegsOrderly;
    assert NewestSeg(d') == NewestSeg(d);
    DropLimbo(cfg, d, k, d');
    DropSegs(cfg, d, k, d');
  }

  lemma DropSegs(cfg: Config, d: Disk, k: nat, d': Disk)
    requires SegsOrderly(cfg, d) && k < |d.segs| && (k == |d.segs| - 1 ==> Firm(NewestSeg(d))) && d'.segs == d.segs[k..]
    requires DurablyHeld(cfg, d', NewestSeg(d).first - 1)
    ensures SegsOrderly(cfg, d')
  {
    hide DurablyHeld, Sealed, Firm, Blank, Ascending;
    assert NewestSeg(d') == NewestSeg(d);
    SuffixSealed(d.segs, k);
    if k + 1 < |d.segs| {
      BlankSuffix(d.segs, k);
    }
  }

  lemma SuffixSealed(segs: seq<SegFile>, k: nat)
    requires Ascending(segs) && k < |segs| && (forall i :: 0 <= i < |segs| ==> 1 <= segs[i].first)
    requires forall i :: 0 <= i < |segs| - 1 ==> Sealed(segs[i])
    ensures Ascending(segs[k..]) && (forall i :: 0 <= i < |segs[k..]| ==> 1 <= segs[k..][i].first)
    ensures forall i :: 0 <= i < |segs[k..]| - 1 ==> Sealed(segs[k..][i])
  {
    hide Sealed;
    assert forall i :: 0 <= i < |segs[k..]| ==> segs[k..][i] == segs[k + i];
  }

  lemma BlankSuffix(segs: seq<SegFile>, k: nat)
    requires k + 1 < |segs|
    ensures Blank(segs[k..]) <==> Blank(segs)
  {
    var rest := segs[k..];
    assert rest[|rest| - 1] == segs[|segs| - 1] && rest[|rest| - 2] == segs[|segs| - 2];
  }

  lemma DropLimbo(cfg: Config, d: Disk, k: nat, d': Disk)
    requires InOrder(cfg, d) && k < |d.segs| && d'.segs == d.segs[k..] && d'.limbo == d.limbo + d.segs[..k]
    ensures LimboOk(d')
  {
    hide DurablyHeld, SnapsSure, Blank;
    forall i, j | 0 <= i < |d'.limbo| && 0 <= j < |d'.segs|
      ensures d'.limbo[i].first < d'.segs[j].first
    {
      assert d'.segs[j] == d.segs[k + j];
      if i >= |d.limbo| {
        assert d.segs[i - |d.limbo|].first < d.segs[k + j].first;
      }
    }
    forall i | 0 <= i < |d'.limbo|
      ensures d'.limbo[i].Whole? && d'.limbo[i].settled
    {
      if i >= |d.limbo| {
        assert Sealed(d.segs[i - |d.limbo|]);
      }
    }
  }

  // ----- repair

  lemma DropNewestOrder(cfg: Config, d: Disk)
    requires InOrder(cfg, d) && d.segs != [] && !Firm(NewestSeg(d))
    requires forall i :: 0 <= i < |d.segs| - 1 ==> 0 <= d.segs[i].synced == |d.segs[i].entries|
    ensures InOrder(cfg, d.(segs := d.segs[..|d.segs| - 1], limbo := if |d.segs| == 1 then [] else d.limbo))
    ensures AllSealed(cfg, d.(segs := d.segs[..|d.segs| - 1], limbo := if |d.segs| == 1 then [] else d.limbo))
  {
    hide DurablyHeld;
    var last := |d.segs| - 1;
    var d' := d.(segs := d.segs[..last], limbo := if |d.segs| == 1 then [] else d.limbo);
    var n := NewestSeg(d).first - 1;
    forall s: nat
      ensures DurablyIn(d'.segs, s) <==> DurablyIn(d.segs, s)
    {
      if DurablyIn(d.segs, s) {
        var i :| 0 <= i < |d.segs| && Secures(d.segs[i], s);
        assert Secures(d'.segs[i], s);
      }
      if DurablyIn(d'.segs, s) {
        var i :| 0 <= i < |d'.segs| && Secures(d'.segs[i], s);
        assert Secures(d.segs[i], s);
      }
    }
    SameHeld(cfg, d, d', n);
    if last > 0 {
      assert d.segs[last - 1].first < d.segs[last].first;
      HeldLess(cfg, d', n, d.segs[last - 1].first - 1);
    }
  }

  lemma SealedSynced(cfg: Config, log: seq<Entry>, d: Disk)
    requires FilesOk(cfg, log, d) && SegsOrderly(cfg, d)
    ensures forall i :: 0 <= i < |d.segs| - 1 ==> 0 <= d.segs[i].synced == |d.segs[i].entries|
  {
    hide DurablyHeld, Apart, Ascending;
    SegsOf(cfg, log, d);
    forall i | 0 <= i < |d.segs| - 1
      ensures 0 <= d.segs[i].synced == |d.segs[i].entries|
    {
      assert SegIn(cfg, log, d.segs[i]);
    }
  }

  /** The newest segment is one an open may go on from: nothing undurable is
      left behind a segment it will write to. */
  predicate Resumable(cfg: Config, d: Disk) {
    && !Husky(d)
    && (d.segs == [] || NewestSeg(d).Headless?
        || (Firm(NewestSeg(d))
            && (|FileBytes(cfg.crc, cfg.id, NewestSeg(d))| >= ROTATE_BYTES
                ==> NewestSeg(d).settled || NewestSeg(d).tail != [])))
  }

  function FileAt(files: seq<SegFile>, i: nat): Option<SegFile> {
    if i < |files| then Some(files[i]) else None
  }

  lemma NoLimbo(cfg: Config, log: seq<Entry>, d: Disk)
    requires FilesOk(cfg, log, d) && LimboOk(d) && LastWhole(d.segs) < 0
    ensures d.limbo == []
  {
    hide Apart, Ascending, SegsIn;
    var first := FileAt(d.limbo, 0);
  }

  /** Removing a header-less newest file, before and after the directory is
      synced. */
  lemma HeadlessOrder(cfg: Config, log: seq<Entry>, d: Disk)
    requires FilesOk(cfg, log, d) && InOrder(cfg, d) && d.segs != [] && NewestSeg(d).Headless?
    ensures var half := d.(segs := d.segs[..|d.segs| - 1], limbo := d.limbo + [NewestSeg(d)]);
            && Orderly(cfg, half) && Husky(half)
            && InOrder(cfg, half.(segs := LinkAll(half.segs), limbo := []))
               && AllSealed(cfg, half.(segs := LinkAll(half.segs), limbo := []))
  {
    hide FilesOk, SnapsSure, LimboOk, SegsOrderly, Sealed;
    var last := |d.segs| - 1;
    var half := d.(segs := d.segs[..last], limbo := d.limbo + [NewestSeg(d)]);
    assert half.limbo[..|d.limbo|] == d.limbo;
    SealedSynced(cfg, log, d);
    DropNewestOrder(cfg, d);
    if last == 0 {
      OnlyHeadless(cfg, d);
      NoLimbo(cfg, log, d);
    }
    LinkAllOrder(cfg, Husked(half));
    LinkAllSealed(cfg, Husked(half));
    assert half.(segs := LinkAll(half.segs), limbo := []) == Husked(half).(segs := LinkAll(half.segs), limbo := []);
    UnlinkedOrder(cfg, d, Unremoved(half));
  }

  lemma OnlyHeadless(cfg: Config, d: Disk)
    requires |d.segs| == 1 && d.segs[0].Headless?
    ensures LastWhole(d.segs) < 0
  {
  }

  lemma LinkAllSealed(cfg: Config, d: Disk)
    requires AllSealed(cfg, d) && InOrder(cfg, d.(segs := LinkAll(d.segs), limbo := []))
    ensures AllSealed(cfg, d.(segs := LinkAll(d.segs), limbo := []))
  {
    hide InOrder;
  }

  /** Whether a header-less newest file is linked makes no difference. */
  lemma UnlinkedOrder(cfg: Config, d: Disk, d': Disk)
    requires InOrder(cfg, d) && d.segs != [] && NewestSeg(d).Headless?
    requires d' == d.(segs := d.segs[..|d.segs| - 1] + [Headless(NewestSeg(d).first, NewestSeg(d).junk, false)])
    ensures InOrder(cfg, d')
  {
    hide DurablyHeld;
    UnlinkedHeld(cfg, d, d');
    var last := |d.segs| - 1;
    assert forall i :: 0 <= i < last ==> d'.segs[i] == d.segs[i];
  }

  lemma UnlinkedHeld(cfg: Config, d: Disk, d': Disk)
    requires d.segs != [] && NewestSeg(d).Headless? && NewestSeg(d).first >= 1
    requires d' == d.(segs := d.segs[..|d.segs| - 1] + [Headless(NewestSeg(d).first, NewestSeg(d).junk, false)])
    requires DurablyHeld(cfg, d, NewestSeg(d).first - 1)
    ensures DurablyHeld(cfg, d', NewestSeg(d).first - 1)
  {
    hide DurablyHeld;
    forall s: nat
      ensures DurablyIn(d'.segs, s) <==> DurablyIn(d.segs, s)
    {
      if DurablyIn(d.segs, s) {
        var i :| 0 <= i < |d.segs| && Secures(d.segs[i], s);
        assert Secures(d'.segs[i], s);
      }
      if DurablyIn(d'.segs, s) {
        var i :| 0 <= i < |d'.segs| && Secures(d'.segs[i], s);
        assert Secures(d.segs[i], s);
      }
    }
    SameHeld(cfg, d, d', NewestSeg(d).first - 1);
  }

  /** Repairing a directory in order, stopped half-way or not. */
  lemma RepairOrder(cfg: Config, log: seq<Entry>, d: Disk)
    requires FilesOk(cfg, log, d) && InOrder(cfg, d) && !Husky(d)
    ensures Orderly(cfg, HalfRepair(cfg, d))
    ensures InOrder(cfg, Repair(cfg, d)) && !Husky(Repair(cfg, d))
    ensures TornAt(cfg, d).Some? ==> AllSealed(cfg, Repair(cfg, d))
  {
    hide FilesOk, TornAt, InOrder, SyncNewest, LinkAll, SetNewest;
    TornIs(cfg, log, d);
    var torn := TornAt(cfg, d);
    if torn.Some? {
      if torn.value < HEADER_LEN {
        HeadlessOrder(cfg, log, d);
      } else {
        TailOrder(cfg, log, d);
      }
    }
  }

  lemma TailOrder(cfg: Config, log: seq<Entry>, d: Disk)
    requires FilesOk(cfg, log, d) && InOrder(cfg, d) && !Husky(d) && d.segs != [] && NewestSeg(d).Whole?
    requires TornAt(cfg, d).Some?
    ensures var half := SetNewest(d, NewestSeg(d).(tail := [], settled := false));
            && InOrder(cfg, half) && half.limbo == d.limbo
            && AllSealed(cfg, SyncNewest(half)) && SyncNewest(half).limbo == d.limbo
  {
    hide DurablyHeld, Ascending, LimboOk, SnapsSure, FilesOk, ReadFile;
    SegsOf(cfg, log, d);
    assert SegIn(cfg, log, NewestSeg(d));
    TornHasTail(cfg, log, d);
    var f := NewestSeg(d).(tail := [], settled := false);
    SetNewestOrder(cfg, d, f);
    SetNewestOrder(cfg, SetNewest(d, f), SyncFile(f));
    assert NewestSeg(SyncNewest(SetNewest(d, f))) == SyncFile(f);
  }

  lemma TornHasTail(cfg: Config, log: seq<Entry>, d: Disk)
    requires FilesOk(cfg, log, d) && d.segs != [] && NewestSeg(d).Whole? && TornAt(cfg, d).Some?
    ensures NewestSeg(d).tail != []
  {
    hide ReadFile, FilesOk;
    TornIs(cfg, log, d);
  }

  /** Once repaired, a directory an open may go on from is sealed when the open
      has to start a new segment. */
  lemma RepairedSealed(cfg: Config, log: seq<Entry>, d: Disk)
    requires FilesOk(cfg, log, d) && InOrder(cfg, d) && Resumable(cfg, d) && Tidied(Repair(cfg, d))
    ensures var d1 := Repair(cfg, d);
            && (d1.segs != [] ==> Firm(NewestSeg(d1)))
            && (d1.segs == [] || |FileBytes(cfg.crc, cfg.id, NewestSeg(d1))| >= ROTATE_BYTES ==> AllSealed(cfg, d1))
  {
    hide FilesOk, TornAt, InOrder, FileBytes, Repair;
    RepairOrder(cfg, log, d);
    NothingTornIs(cfg, d);
    if TornAt(cfg, d).None? {
      SegsOf(cfg, log, d);
      if d.segs != [] {
        assert SegIn(cfg, log, NewestSeg(d));
      }
    } else {
      SealedFirm(cfg, log, d);
    }
  }

  lemma NothingTornIs(cfg: Config, d: Disk)
    ensures TornAt(cfg, d).None? ==> Repair(cfg, d) == d
  {
  }

  lemma SealedFirm(cfg: Config, log: seq<Entry>, d: Disk)
    requires AllSealed(cfg, Repair(cfg, d))
    ensures Repair(cfg, d).segs != [] ==> Firm(NewestSeg(Repair(cfg, d)))
  {
    hide Repair, InOrder;
  }

  /** An open of a directory in order, whatever fails in it, leaves it in order;
      and when it succeeds its writer's segment is firm. */
  lemma OpenOrder(cfg: Config, base: Logical, log: seq<Entry>, d: Disk, fault: OpenFault)
    requires LogOk(cfg, log) && DiskInv(cfg, base, log, d) && BaseOk(cfg, base)
    requires InOrder(cfg, d) && Resumable(cfg, d)
    ensures var (d', r) := Open(cfg, d, fault);
            && Orderly(cfg, d')
            && (r.Ok? ==> !Husky(d') && InOrder(cfg, d') && d'.segs != [] && Firm(NewestSeg(d'))
                          && r.value.wal.current == NewestSeg(d').first)
  {
    hide LogOk, DiskInv, BaseOk, MemOk, Recover, Repair, HalfRepair, StartWriter, RecoveredOk, Tidied, InOrder,
         Resumable, Orderly;
    hide FilesOk, SnapsOk, FileBytes, AllSealed;
    InvFiles(cfg, base, log, d);
    NotHusky(cfg, d);
    RepairOrder(cfg, log, d);
    OrderlyIs(cfg, d);
    OrderlyIs(cfg, Repair(cfg, d));
    if Recover(cfg, d).Ok? {
      RecoverOk(cfg, base, log, d);
      var r := Recover(cfg, d).value;
      RepairOk(cfg, base, log, d, r);
      RepairedSealed(cfg, log, d);
      RepairFiles(cfg, log, d);
      EmptyHigh(cfg, base, log, d, r);
      StartOrder(cfg, log, Repair(cfg, d), r, fault);
    }
  }

  lemma NotHusky(cfg: Config, d: Disk)
    requires Resumable(cfg, d)
    ensures !Husky(d)
  {
  }

  lemma OrderlyIs(cfg: Config, d: Disk)
    requires !Husky(d) && InOrder(cfg, d)
    ensures Orderly(cfg, d)
  {
  }

  lemma EmptyHigh(cfg: Config, base: Logical, log: seq<Entry>, d: Disk, r: Recovered)
    requires InOrder(cfg, d) && RecoveredOk(cfg, base, log, d, r) && RepairedOk(cfg, base, log, d, Repair(cfg, d))
    ensures Repair(cfg, d).segs == [] ==> r.mem.high == 0
  {
    hide MemOk, DiskInv, ReadFile, Repair, LimboOk, SnapsSure, DurablyHeld;
  }

  lemma StartOrder(cfg: Config, log: seq<Entry>, d: Disk, r: Recovered, fault: OpenFault)
    requires FilesOk(cfg, log, d) && Tidied(d) && InOrder(cfg, d) && !Husky(d)
    requires d.segs != [] ==> Firm(NewestSeg(d))
    requires d.segs == [] || |FileBytes(cfg.crc, cfg.id, NewestSeg(d))| >= ROTATE_BYTES ==> AllSealed(cfg, d)
    requires d.segs == [] ==> r.mem.high == 0
    ensures var (d', s) := StartWriter(cfg, d, r, fault);
            && Orderly(cfg, d')
            && (s.Ok? ==> !Husky(d') && InOrder(cfg, d') && d'.segs != [] && Firm(NewestSeg(d'))
                          && s.value.wal.current == NewestSeg(d').first)
  {
    hide FilesOk, InOrder, OpenWriter, Create, FileBytes, Tidied, AllSealed, WithSegment;
    if OpenWriter(cfg, d, r.mem.high).Ok? {
      OpenWriterOk(cfg, log, d, r.mem.high);
      var (w, create) := OpenWriter(cfg, d, r.mem.high).value;
      if create {
        CreatesFull(cfg, d, r.mem.high);
        CreateOrder(cfg, log, d, r.mem.high + 1, None);
        NewestCreated(cfg, d, r.mem.high + 1);
        CreatedNotHusky(cfg, d, r.mem.high + 1, None);
        if fault.OpenCreateFails? {
          CreateOrder(cfg, log, d, r.mem.high + 1, Some(fault.made));
          CreatedNotHusky(cfg, d, r.mem.high + 1, Some(fault.made));
        }
      }
    }
  }

  /** An open starts a new segment only when there is none, or a full one. */
  lemma CreatesFull(cfg: Config, d: Disk, last: nat)
    requires OpenWriter(cfg, d, last).Ok? && OpenWriter(cfg, d, last).value.1
    ensures d.segs == [] || |FileBytes(cfg.crc, cfg.id, NewestSeg(d))| >= ROTATE_BYTES
  {
    hide FileBytes, ReadFile;
  }

  lemma CreatedNotHusky(cfg: Config, d: Disk, first: nat, made: Option<Made>)
    requires !Husky(d)
    ensures !Husky(Create(cfg, d, first, made))
    ensures made.None? ==>
              Create(cfg, d, first, made).segs != []
              && NewestSeg(Create(cfg, d, first, made)).first == first
  {
    hide HeaderOf, LinkAll;
  }

  // ----- power loss

  /** The survivor of a sealed file is that file, linked. */
  lemma SealedSurvives(crc: Checksum, f: SegFile, g: SegFile)
    requires f.Whole? && f.settled && MayLeave(crc, f, g)
    ensures g == Link(f) && Sealed(g) && g.first == f.first && EndOf(g) == EndOf(f) && g.synced == |g.entries|
  {
  }

  /** Every file of a directory in order that is not its newest is settled and
      starts before the newest. */
  lemma OtherFiles(cfg: Config, d: Disk, f: SegFile)
    requires InOrder(cfg, d) && d.segs != [] && (f in d.segs || f in d.limbo)
    ensures f == NewestSeg(d) || (f.Whole? && f.settled && f.first < NewestSeg(d).first)
  {
    hide DurablyHeld, SnapsSure;
    var last := |d.segs| - 1;
    if f in d.limbo {
      var i :| 0 <= i < |d.limbo| && d.limbo[i] == f;
      assert d.limbo[i].first < d.segs[last].first;
    } else {
      var i :| 0 <= i < |d.segs| && d.segs[i] == f;
      assert i < last ==> d.segs[i].first < d.segs[last].first && Sealed(d.segs[i]);
    }
  }

  lemma SurvivorOf(crc: Checksum, d: Disk, after: Disk, i: nat) returns (f: SegFile)
    requires PowerLoss(crc, d, after) && i < |after.segs|
    ensures (f in d.segs || f in d.limbo) && MayLeave(crc, f, after.segs[i]) && after.segs[i].first == f.first
  {
    assert after.segs[i] in after.segs;
    f :| (f in d.segs || f in d.limbo) && MayLeave(crc, f, after.segs[i]);
  }

  /** After a power loss every file before the last is sealed. */
  lemma SurvivorsSealed(cfg: Config, d: Disk, after: Disk)
    requires InOrder(cfg, d) && d.segs != [] && PowerLoss(cfg.crc, d, after)
    ensures forall i :: 0 <= i < |after.segs| - 1 ==> Sealed(after.segs[i])
    ensures forall i :: 0 <= i < |after.segs| ==> 1 <= after.segs[i].first <= NewestSeg(d).first
    ensures after.segs != [] && NewestSeg(after).first < NewestSeg(d).first ==> Sealed(NewestSeg(after))
  {
    hide InOrder, Sealed;
    forall i | 0 <= i < |after.segs|
      ensures 1 <= after.segs[i].first <= NewestSeg(d).first
      ensures i < |after.segs| - 1 || after.segs[i].first < NewestSeg(d).first ==> Sealed(after.segs[i])
    {
      var f := SurvivorOf(cfg.crc, d, after, i);
      OtherFiles(cfg, d, f);
      if i < |after.segs| - 1 {
        var g := SurvivorOf(cfg.crc, d, after, |after.segs| - 1);
        OtherFiles(cfg, d, g);
        assert after.segs[i].first < after.segs[|after.segs| - 1].first;
      }
      if f.Whole? && f.settled {
        SealedSurvives(cfg.crc, f, after.segs[i]);
      }
    }
  }

  /** The segment before the newest comes back as it is, and nothing comes back
      between the two. */
  lemma PreviousSurvives(cfg: Config, d: Disk, after: Disk) returns (p: nat)
    requires InOrder(cfg, d) && |d.segs| > 1 && PowerLoss(cfg.crc, d, after)
    ensures p < |after.segs| && after.segs[p] == Link(d.segs[|d.segs| - 2])
    ensures if NewestSeg(after).first == NewestSeg(d).first then p == |after.segs| - 2 else p == |after.segs| - 1
  {
    hide InOrder, MayLeave;
    p := PreviousAt(cfg, d, after);
    forall q | p < q < |after.segs|
      ensures after.segs[q].first == NewestSeg(d).first
    {
      var f := SurvivorOf(cfg.crc, d, after, q);
      UpToPrevious(cfg, d, f);
      assert after.segs[p].first < after.segs[q].first;
    }
    OneAbove(after.segs, p, NewestSeg(d).first);
  }

  lemma PreviousAt(cfg: Config, d: Disk, after: Disk) returns (p: nat)
    requires InOrder(cfg, d) && |d.segs| > 1 && PowerLoss(cfg.crc, d, after)
    ensures p < |after.segs| && after.segs[p] == Link(d.segs[|d.segs| - 2])
    ensures d.segs[|d.segs| - 2].first == after.segs[p].first < NewestSeg(d).first
  {
    hide DurablyHeld, SnapsSure, LimboOk, MayLeave;
    var prev := d.segs[|d.segs| - 2];
    assert Sealed(prev) && prev in d.segs;
    var g :| g in after.segs && MayLeave(cfg.crc, prev, g);
    SealedSurvives(cfg.crc, prev, g);
    p :| 0 <= p < |after.segs| && after.segs[p] == g;
    assert prev.first < NewestSeg(d).first;
  }

  lemma OneAbove(segs: seq<SegFile>, p: nat, x: nat)
    requires Ascending(segs) && p < |segs| && forall q :: p < q < |segs| ==> segs[q].first == x
    ensures |segs| <= p + 2
  {
    var a, b := FileAt(segs, p + 1), FileAt(segs, p + 2);
  }

  lemma UpToPrevious(cfg: Config, d: Disk, f: SegFile)
    requires InOrder(cfg, d) && |d.segs| > 1 && (f in d.segs || f in d.limbo)
    ensures f == NewestSeg(d) || f.first <= d.segs[|d.segs| - 2].first
  {
    hide DurablyHeld, SnapsSure;
    var last := |d.segs| - 1;
    if f in d.limbo {
      var i :| 0 <= i < |d.limbo| && d.limbo[i] == f;
      assert d.limbo[i].first < d.segs[last - 1].first;
    } else {
      var i :| 0 <= i < |d.segs| && d.segs[i] == f;
      assert i < last - 1 ==> d.segs[i].first < d.segs[last - 1].first;
    }
  }

  lemma LastIsHighest(segs: seq<SegFile>, j: nat)
    requires Ascending(segs) && j < |segs|
    ensures segs[j].first <= segs[|segs| - 1].first
  {
  }

  /** The newest file after a power loss, when it is what was left of the newest
      before it. */
  lemma NewestSurvives(cfg: Config, d: Disk, after: Disk)
    requires InOrder(cfg, d) && d.segs != [] && PowerLoss(cfg.crc, d, after) && after.segs != []
    requires NewestSeg(after).first == NewestSeg(d).first
    ensures MayLeave(cfg.crc, NewestSeg(d), NewestSeg(after))
  {
    hide InOrder;
    var f := SurvivorOf(cfg.crc, d, after, |after.segs| - 1);
    OtherFiles(cfg, d, f);
  }

  /** A linked newest file comes back last. */
  lemma LinkedSurvives(cfg: Config, d: Disk, after: Disk)
    requires InOrder(cfg, d) && d.segs != [] && NewestSeg(d).linked && PowerLoss(cfg.crc, d, after)
    ensures after.segs != [] && NewestSeg(after).first == NewestSeg(d).first
  {
    hide InOrder, Sealed;
    assert NewestSeg(d) in d.segs;
    var g :| g in after.segs && MayLeave(cfg.crc, NewestSeg(d), g);
    var j :| 0 <= j < |after.segs| && after.segs[j] == g;
    SurvivorsSealed(cfg, d, after);
    LastIsHighest(after.segs, j);
  }

  lemma SegsAfterLoss(cfg: Config, d: Disk, after: Disk)
    requires InOrder(cfg, d) && d.segs != [] && PowerLoss(cfg.crc, d, after)
    ensures SegsOrderly(cfg, after) && SureEnd(after) >= SureEnd(d)
  {
    hide DurablyHeld, PowerLoss, InOrder, SnapsSure, LimboOk, MayLeave;
    var m := NewestSeg(d);
    NewestParts(cfg, d);
    SurvivorsSealed(cfg, d, after);
    LossKeepsDurable(cfg, d, after, m.first - 1);
    LossAscends(cfg.crc, d, after);
    if after.segs == [] {
      HeldLess(cfg, after, m.first - 1, 0);
    } else {
      HeldLess(cfg, after, m.first - 1, NewestSeg(after).first - 1);
    }
    if m.linked {
      LinkedSurvives(cfg, d, after);
    }
    if |d.segs| > 1 {
      var p := PreviousSurvives(cfg, d, after);
    }
    if after.segs != [] && NewestSeg(after).first == m.first {
      NewestSurvives(cfg, d, after);
      NewestLeft(cfg.crc, m, NewestSeg(after));
      if |d.segs| == 1 && |after.segs| > 1 {
        assert after.segs[0].first < after.segs[|after.segs| - 1].first;
      }
    }
    if after.segs != [] && NewestSeg(after).first < m.first {
      SettledNewest(cfg, d, after);
    }
  }

  lemma NewestParts(cfg: Config, d: Disk)
    requires InOrder(cfg, d) && d.segs != []
    ensures var m := NewestSeg(d);
            && m.first >= 1 && DurablyHeld(cfg, d, m.first - 1) && (Firm(m) || Blank(d.segs))
            && (|d.segs| > 1 ==> Sealed(d.segs[|d.segs| - 2]) && d.segs[|d.segs| - 2].first < m.first)
  {
    hide DurablyHeld, SnapsSure, LimboOk;
  }

  lemma LossAscends(crc: Checksum, d: Disk, after: Disk)
    requires PowerLoss(crc, d, after)
    ensures Ascending(after.segs) && after.limbo == [] && after.before == map[] && SnapsLeft(d, after.snaps)
  {
  }

  lemma NewestLeft(crc: Checksum, f: SegFile, g: SegFile)
    requires MayLeave(crc, f, g)
    ensures Firm(f) ==> Firm(g) && g.synced >= f.synced
    ensures g.Whole? ==> Firm(g) && g.synced == |g.entries| && f.Whole? && g.entries <= f.entries
    ensures g.Headless? ==> EntriesOf(g) == []
  {
  }

  /** When the newest file was lost, the one before it is the newest. */
  lemma SettledNewest(cfg: Config, d: Disk, after: Disk)
    requires InOrder(cfg, d) && d.segs != [] && PowerLoss(cfg.crc, d, after) && after.segs != []
    requires NewestSeg(after).first < NewestSeg(d).first
    ensures |d.segs| > 1 && Sealed(NewestSeg(after)) && NewestSeg(after).synced == |NewestSeg(after).entries|
    ensures EndOf(NewestSeg(after)) == EndOf(d.segs[|d.segs| - 2]) && !Firm(NewestSeg(d))
  {
    hide DurablyHeld, PowerLoss, InOrder, SnapsSure, LimboOk, MayLeave, Sealed, Link;
    NewestParts(cfg, d);
    SurvivorsSealed(cfg, d, after);
    if NewestSeg(d).linked {
      LinkedSurvives(cfg, d, after);
    }
    var p := PreviousSurvives(cfg, d, after);
    var f := SurvivorOf(cfg.crc, d, after, |after.segs| - 1);
    OtherFiles(cfg, d, f);
    SealedSurvives(cfg.crc, f, NewestSeg(after));
    PreviousEnd(d.segs[|d.segs| - 2]);
  }

  lemma PreviousEnd(f: SegFile)
    ensures EndOf(Link(f)) == EndOf(f)
  {
  }

  lemma SnapsAfterLoss(d: Disk, after: Disk)
    requires SnapsSure(d) && SnapsLeft(d, after.snaps) && after.before == map[] && SureEnd(after) >= SureEnd(d)
    ensures SnapsSure(after)
  {
    hide SureEnd;
    forall h | h in after.snaps && after.snaps[h].good
      ensures h <= SureEnd(after)
    {
      if !(h in d.snaps && after.snaps[h] == d.snaps[h]) {
        assert h in d.before && d.before[h] == Some(after.snaps[h]);
      }
    }
  }

  /** A power loss keeps a directory in order. */
  lemma LossKeepsOrder(cfg: Config, log: seq<Entry>, d: Disk, after: Disk)
    requires InOrder(cfg, d) && PowerLoss(cfg.crc, d, after)
    ensures InOrder(cfg, after) && !Husky(after)
  {
    hide DurablyHeld, PowerLoss, SnapsSure, SureEnd, SegsOrderly, LimboOk;
    LossAscends(cfg.crc, d, after);
    if d.segs == [] {
      NothingLeft(cfg, d, after);
    } else {
      SegsAfterLoss(cfg, d, after);
    }
    SnapsAfterLoss(d, after);
    assert LimboOk(after) by { EmptyLimbo(after); }
  }

  lemma EmptyLimbo(d: Disk)
    requires d.limbo == []
    ensures LimboOk(d)
  {
  }

  lemma NothingLeft(cfg: Config, d: Disk, after: Disk)
    requires InOrder(cfg, d) && d.segs == [] && PowerLoss(cfg.crc, d, after)
    ensures after.segs == [] && SegsOrderly(cfg, after) && SureEnd(after) >= SureEnd(d)
  {
    hide DurablyHeld, MayLeave, SnapsSure;
    if after.segs != [] {
      var f := SurvivorOf(cfg.crc, d, after, 0);
    }
    LossKeepsDurable(cfg, d, after, 0);
  }

  /** Losing power with a removal pending is losing it before the removal. */
  lemma UnremovedLoss(crc: Checksum, d: Disk, after: Disk)
    requires Husky(d) && PowerLoss(crc, d, after)
    ensures PowerLoss(crc, Unremoved(d), after)
  {
    hide Ascending;
    var e := Unremoved(d);
    var husk := d.limbo[|d.limbo| - 1];
    forall g | g in after.segs
      ensures exists f :: (f in e.segs || f in e.limbo) && MayLeave(crc, f, g)
    {
      var f :| (f in d.segs || f in d.limbo) && MayLeave(crc, f, g);
      if f in d.segs {
        assert f in e.segs;
      } else if f != husk {
        var i :| 0 <= i < |d.limbo| && d.limbo[i] == f;
        assert e.limbo[i] == f;
      } else {
        var unlinked := Headless(husk.first, husk.junk, false);
        assert unlinked in e.segs && MayLeave(crc, unlinked, g);
      }
    }
    forall f | f in e.segs && f.linked
      ensures exists g :: g in after.segs && MayLeave(crc, f, g)
    {
      assert f in d.segs;
    }
  }

  lemma LossKeepsOrderly(cfg: Config, log: seq<Entry>, d: Disk, after: Disk)
    requires Orderly(cfg, d) && PowerLoss(cfg.crc, d, after)
    ensures InOrder(cfg, after) && !Husky(after) && Orderly(cfg, after)
  {
    hide InOrder, PowerLoss;
    if Husky(d) {
      UnremovedLoss(cfg.crc, d, after);
      LossKeepsOrder(cfg, log, Unremoved(d), after);
    } else {
      LossKeepsOrder(cfg, log, d, after);
    }
  }
}
