/** `WalWriter` (wal.rs): fields updated in place over the WAL directory, each
    method proved against the operation the runs are made of. */
module WalWriting {
  import opened Words
  import opened WalCodec
  import opened WalSegment
  import opened Disk
  import opened StoreOps

  class WalWriter {
    const cfg: Config
    /** The directory; the segment being written is its newest file. */
    var disk: Disk
    /** First sequence of that segment, and its length. */
    var current: nat
    var bytes: nat
    var nextSeq: nat
    var poisoned: bool

    ghost function State(): Writer
      reads this
    {
      Writer(current, bytes, nextSeq, poisoned)
    }

    constructor (cfg: Config, disk: Disk, w: Writer)
      ensures this.cfg == cfg && this.disk == disk && State() == w
    {
      this.cfg, this.disk := cfg, disk;
      current, bytes, nextSeq, poisoned := w.current, w.bytes, w.nextSeq, w.poisoned;
    }

    /** Repair the torn tail a recovery found: remove a file without a header
        and sync the directory, or shorten the file and sync it. `stopped` says
        that the process stops between the two. */
    method TruncateTornTail(stopped: bool)
      modifies `disk
      ensures disk == if stopped then HalfRepair(cfg, old(disk)) else Repair(cfg, old(disk))
    {
      hide ReadFile;
      if disk.segs == [] {
        return;
      }
      var newest := NewestSeg(disk);
      var read := ReadFile(cfg.crc, cfg.id, newest, true);
      if read.Err? || read.value.torn.None? {
        return;
      }
      if read.value.torn.value < HEADER_LEN {
        disk := disk.(segs := disk.segs[..|disk.segs| - 1], limbo := disk.limbo + [newest]);
        if !stopped {
          disk := disk.(segs := LinkAll(disk.segs), limbo := []);
        }
      } else {
        if newest.Whole? {
          disk := SetNewest(disk, newest.(tail := [], settled := false));
        }
        if !stopped {
          disk := SyncNewest(disk);
        }
      }
    }

    /** Position the writer after `last`: extend the newest segment when it ends
        exactly there and has room, otherwise start a new one. `made` is how
        creating that one fails, if it does. */
    method Open(last: nat, made: Option<Made>) returns (r: Result<(), StoreError>)
      modifies this
      ensures OpenWriter(cfg, old(disk), last).Err? ==>
        r == Err(OpenWriter(cfg, old(disk), last).error) && disk == old(disk)
      ensures OpenWriter(cfg, old(disk), last).Ok? ==>
        var (w, create) := OpenWriter(cfg, old(disk), last).value;
        && disk == (if create then Create(cfg, old(disk), last + 1, made) else old(disk))
        && (create && made.Some? ==> r == Err(IoFailed))
        && (!create || made.None? ==> r.Ok? && State() == w)
    {
      hide ReadFile, FileBytes;
      if disk.segs != [] {
        var f := NewestSeg(disk);
        if f.first > last + 1 {
          return Err(Wal(SequenceGap(last + 1, f.first)));
        }
        var read := ReadFile(cfg.crc, cfg.id, f, true);
        if read.Err? {
          return Err(Wal(read.error));
        }
        if read.value.torn.Some? {
          return Err(Wal(CorruptAt(read.value.torn.value)));
        }
        if SegmentEnd(read.value, f) != last {
          return Err(Wal(SequenceGap(last + 1, f.first)));
        }
        var len := |FileBytes(cfg.crc, cfg.id, f)|;
        if len < ROTATE_BYTES {
          current, bytes, nextSeq, poisoned := f.first, len, last + 1, false;
          return Ok(());
        }
      }
      CreateSegment(last + 1, made);
      if made.Some? {
        return Err(IoFailed);
      }
      current, bytes, nextSeq, poisoned := last + 1, HEADER_LEN, last + 1, false;
      r := Ok(());
    }

    /** Refuse every later append. */
    method Poison()
      modifies `poisoned
      ensures poisoned
    {
      poisoned := true;
    }

    /** Write the header, sync the file, sync the directory; the caller opens
        the file again. */
    method CreateSegment(first: nat, made: Option<Made>)
      modifies `disk
      ensures disk == Create(cfg, old(disk), first, made)
    {
      var before := disk.segs;
      if made == Some(NoFile) {
        return;
      }
      if made.Some? && made.value.PartHeader? {
        var part := HeaderOf(cfg.id, first)[..if made.value.k < HEADER_LEN then made.value.k else 0];
        disk := disk.(segs := before + [Headless(first, part, false)]);
        return;
      }
      disk := disk.(segs := before + [Whole(first, [], [], -1, false, false)]);
      if made == Some(HeaderUnsynced) {
        return;
      }
      disk := disk.(segs := before + [Whole(first, [], [], 0, true, false)]);
      if made == Some(NotLinked) {
        return;
      }
      assert LinkAll(disk.segs) == LinkAll(before) + [Whole(first, [], [], 0, true, true)];
      disk := disk.(segs := LinkAll(disk.segs), limbo := []);
    }

    /** Seal the current segment and start the next one. */
    method Rotate(fault: Fault) returns (r: Result<nat, WalError>)
      requires disk.segs != []
      modifies `disk, `current, `bytes
      ensures Appended(disk, State().(poisoned := r.Err? || poisoned), r)
           == StoreOps.Rotate(cfg, old(disk), old(State()), fault)
    {
      if fault.RotateSyncFails? {
        return Err(Io);
      }
      disk := SyncNewest(disk);
      CreateSegment(nextSeq, if fault.CreateFails? then Some(fault.made) else None);
      if fault.CreateFails? {
        return Err(Io);
      }
      current, bytes := nextSeq, HEADER_LEN;
      r := Ok(nextSeq);
    }

    /** Append without syncing. An entry that does not encode is refused before
        anything is written; any later failure poisons the writer. */
    method AppendUnsynced(opId: OpId, op: Operation, fault: Fault) returns (r: Result<nat, WalError>)
      requires disk.segs != []
      modifies this
      ensures Appended(disk, State(), r) == StoreOps.AppendUnsynced(cfg, old(disk), old(State()), opId, op, fault)
    {
      hide FrameOf;
      if poisoned {
        return Err(Poisoned);
      }
      var e := Entry(nextSeq, opId, op);
      var frame := Encode(cfg.crc, e);
      if frame.Err? {
        return Err(frame.error);
      }
      if bytes >= ROTATE_BYTES {
        var rotated := Rotate(fault);
        if rotated.Err? {
          poisoned := true;
          return Err(rotated.error);
        }
        assert disk.segs != [];
      }
      var f := NewestSeg(disk);
      if !f.Whole? {
        poisoned := true;
        return Err(Io);
      }
      if fault.WriteFails? {
        var part := frame.value[..if fault.part < |frame.value| then fault.part else 0];
        disk := SetNewest(disk, f.(tail := part, settled := false));
        poisoned := true;
        return Err(Io);
      }
      disk := SetNewest(disk, f.(entries := f.entries + [e], settled := false));
      bytes := bytes + |frame.value|;
      nextSeq := nextSeq + 1;
      r := Ok(e.seqNo);
    }

    /** Sync the segment; a failed sync poisons the writer. */
    method Sync(fails: bool) returns (ok: bool)
      requires disk.segs != []
      modifies `disk, `poisoned
      ensures ok <==> !old(poisoned) && !fails
      ensures disk == if ok then SyncNewest(old(disk)) else old(disk)
      ensures poisoned == !ok
    {
      if poisoned || fails {
        poisoned := true;
        return false;
      }
      disk := SyncNewest(disk);
      ok := true;
    }

    /** Remove segments wholly covered by the snapshot, one at a time, never the
        one being written; then sync the directory. `stop` is how many
        neighbours the loop examines before the process stops, if it does. */
    method TruncateBelow(snapHigh: nat, stop: nat, synced: bool) returns (removed: nat)
      modifies `disk
      ensures removed == |Removed(old(disk).segs, 0, snapHigh, current, stop)|
      ensures disk == if removed == 0 then old(disk)
                      else old(disk).(segs := if synced then LinkAll(Kept(old(disk).segs, 0, snapHigh, current, stop))
                                              else Kept(old(disk).segs, 0, snapHigh, current, stop),
                                      limbo := if synced then []
                                               else
                                                 old(disk).limbo
                                                 + Removed(old(disk).segs, 0, snapHigh, current, stop))
    {
      var kept, gone := SplitCovered(disk.segs, snapHigh, stop);
      removed := |gone|;
      if removed > 0 {
        if synced {
          disk := disk.(segs := LinkAll(kept), limbo := []);
        } else {
          disk := disk.(segs := kept, limbo := disk.limbo + gone);
        }
      }
    }

    method SplitCovered(segments: seq<SegFile>, snapHigh: nat, stop: nat)
      returns (kept: seq<SegFile>, gone: seq<SegFile>)
      ensures kept == Kept(segments, 0, snapHigh, current, stop)
      ensures gone == Removed(segments, 0, snapHigh, current, stop)
    {
      kept, gone := [], [];
      var i := 0;
      while i < |segments|
        invariant 0 <= i <= |segments|
        invariant kept + Kept(segments, i, snapHigh, current, stop) == Kept(segments, 0, snapHigh, current, stop)
        invariant gone + Removed(segments, i, snapHigh, current, stop) == Removed(segments, 0, snapHigh, current, stop)
      {
        if i < stop && i + 1 < |segments| && segments[i + 1].first <= snapHigh + 1 && segments[i].first != current {
          gone := gone + [segments[i]];
        } else {
          kept := kept + [segments[i]];
        }
        i := i + 1;
      }
      assert kept + [] == kept && gone + [] == gone;
    }
  }
}
