/**
 The audit log: an active file and numbered rotations `.1` (newest) to `.M`
 (oldest). Slot 0 of the directory stands for the active file, slot `i` for the
 rotation with suffix `.i`.
 */
module AuditRing {
  import opened Text
  import opened Sorting

  datatype AuditEvent = AuditEvent(
    action: string,
    status: string,
    createdAt: string,
    eventId: string,
    tenant: string,
    project: string,
    detail: string)

  type Shard = seq<AuditEvent>
  type Dir = map<nat, Shard>

  datatype Config = Config(maxBytes: int, maxFiles: int)

  /** A ring has at least one rotation. */
  function Slots(cfg: Config): (m: nat)
    ensures m >= 1
  {
    if cfg.maxFiles < 1 then 1 else cfg.maxFiles
  }

  function Slot(dir: Dir, i: nat): Shard {
    if i in dir then dir[i] else []
  }

  /** Bytes of a shard: `enc` gives the length of an encoded event, each followed by a line feed. */
  function Bytes(shard: Shard, enc: AuditEvent -> nat): nat {
    if shard == [] then 0 else Bytes(shard[..|shard| - 1], enc) + enc(shard[|shard| - 1]) + 1
  }

  /** Everything slots `n` down to 0 hold, oldest first. */
  function Retained(dir: Dir, n: nat): seq<AuditEvent> {
    if n == 0 then Slot(dir, 0) else Slot(dir, n) + Retained(dir, n - 1)
  }

  predicate SameSlot(a: Dir, i: nat, b: Dir, j: nat) {
    (i in a <==> j in b) && (i in a ==> a[i] == b[j])
  }

  /** Slot `j` of `after`, when a rotation of `before` has come as far as an empty slot `gap`. */
  predicate Came(before: Dir, after: Dir, j: nat, gap: nat, m: nat) {
    if j == gap then j !in after
    else if gap < j <= m then SameSlot(after, j, before, j - 1)
    else SameSlot(after, j, before, j)
  }

  /** Slots above the gap hold what was one slot below, slots below it and beyond the ring are untouched. */
  ghost predicate ShiftedTo(before: Dir, after: Dir, gap: nat, m: nat) {
    gap <= m && forall j: nat :: Came(before, after, j, gap, m)
  }

  /** Renaming slot `i` into the gap above it, if it exists, moves the gap down by one. */
  lemma MoveGap(before: Dir, dir: Dir, i: nat, m: nat)
    requires i < m && ShiftedTo(before, dir, i + 1, m)
    ensures i in dir ==> ShiftedTo(before, (dir - {i})[i + 1 := dir[i]], i, m)
    ensures i !in dir ==> ShiftedTo(before, dir, i, m)
    ensures SameSlot(dir, 0, before, 0)
  {
    assert Came(before, dir, 0, i + 1, m);
    assert Came(before, dir, i + 1, i + 1, m);
    var after := if i in dir then (dir - {i})[i + 1 := dir[i]] else dir;
    forall j: nat
      ensures Came(before, after, j, i, m)
    {
      assert Came(before, dir, j, i + 1, m);
      assert Came(before, dir, i, i + 1, m);
    }
  }

  lemma DropLast(before: Dir, m: nat)
    ensures ShiftedTo(before, before - {m}, m, m)
    ensures m !in before ==> ShiftedTo(before, before, m, m)
  {
    forall j: nat
      ensures Came(before, before - {m}, j, m, m)
    {
    }
    forall j: nat | m !in before
      ensures Came(before, before, j, m, m)
    {
    }
  }

  predicate NeedsRotation(dir: Dir, cfg: Config, enc: AuditEvent -> nat) {
    cfg.maxBytes > 0 && 0 in dir && Bytes(dir[0], enc) >= cfg.maxBytes
  }

  /**
   Rotations as far as one call can take them: all the way, or until a file operation fails. `started` says whether the
   first operation worked.
   */
  ghost predicate Rotation(before: Dir, after: Dir, cfg: Config, enc: AuditEvent -> nat, ok: bool, started: bool) {
    if !NeedsRotation(before, cfg, enc) then ok && after == before
    else if ok then started && ShiftedTo(before, after, 0, Slots(cfg))
    else if started then exists gap: nat :: 1 <= gap <= Slots(cfg) && ShiftedTo(before, after, gap, Slots(cfg))
    else after == before
  }

  function AppendTo(dir: Dir, e: AuditEvent): Dir {
    dir[0 := Slot(dir, 0) + [e]]
  }

  /** A tenant or project name as given: blank names stay as they are, others must be identifiers. */
  function ScopeName(s: string): Option<string> {
    if Blank(s) then Some(s) else ValidateId(s)
  }

  /** Opening the active file creates it. */
  function Opened(dir: Dir): Dir {
    if 0 in dir then dir else dir[0 := []]
  }

  /**
   One append of `e`, `ok` when its line ends up in the file: rotate, open, write. It may stop before or in the
   rotation, before the active file is opened, or before anything is written to it. `started` says whether the first
   operation of a rotation that is needed worked.
   */
  ghost predicate AppendStep(
    before: Dir, after: Dir, e: AuditEvent, cfg: Config, enc: AuditEvent -> nat, ok: bool, started: bool)
  {
    if ok then exists mid: Dir :: Rotation(before, mid, cfg, enc, true, started) && after == AppendTo(mid, e)
    else
      || Rotation(before, after, cfg, enc, false, started)
      || exists mid: Dir :: Rotation(before, mid, cfg, enc, true, started) && (after == mid || after == Opened(mid))
  }

  /** How the writing of the line ends. */
  datatype WriteEnd = Written | PrepareFails | OpenFails | WriteFails | CloseFails

  /** What `AppendAudit` stores for an event: defaults filled in, names validated; `None` when it is refused. */
  function Normalized(e: AuditEvent, nowDate: string, nowId: string): Option<AuditEvent> {
    var action := TrimSpace(ToLower(e.action));
    var tenant := ScopeName(e.tenant);
    var project := ScopeName(e.project);
    if action == "" || tenant.None? || project.None? then None
    else Some(e.(action := action,
                 status := if e.status == "" then "success" else e.status,
                 createdAt := if e.createdAt == "" then nowDate else e.createdAt,
                 eventId := if e.eventId == "" then nowId else e.eventId,
                 tenant := tenant.value,
                 project := project.value))
  }

  // ---- Listing ----

  /** Lines longer than this stop the reader's scanner. */
  const MAX_LINE_BYTES: nat := 16 * 1024 * 1024

  predicate Readable(e: AuditEvent, enc: AuditEvent -> nat) {
    enc(e) + 1 <= MAX_LINE_BYTES
  }

  predicate Selected(e: AuditEvent, tenant: string, project: string) {
    (tenant == "" || e.tenant == tenant) && (project == "" || e.project == project)
  }

  /** Newest first, by creation date and then event id. */
  predicate Newer(a: AuditEvent, b: AuditEvent) {
    if a.createdAt == b.createdAt then LexLess(b.eventId, a.eventId) else LexLess(b.createdAt, a.createdAt)
  }

  lemma NewerIsOrder()
    ensures StrictWeakOrder(Newer)
  {
    forall x, y, z ensures Lawful(Newer, x, y, z) {
      LexOrder();
    }
  }

  datatype Listing = Refused | Unreadable | Events(events: seq<AuditEvent>)

  ghost predicate ReadableShard(shard: Shard, enc: AuditEvent -> nat) {
    forall e | e in shard :: Readable(e, enc)
  }

  ghost predicate RingReadable(dir: Dir, cfg: Config, enc: AuditEvent -> nat) {
    forall k: nat | k <= Slots(cfg) :: ReadableShard(Slot(dir, k), enc)
  }

  function Selection(shard: Shard, tenant: string, project: string): seq<AuditEvent> {
    Filter(shard, e => Selected(e, tenant, project))
  }

  /** What the reader collects from slots 0 to `n - 1`, in that order. */
  function ReadUpTo(dir: Dir, n: nat, tenant: string, project: string): seq<AuditEvent> {
    if n == 0 then [] else ReadUpTo(dir, n - 1, tenant, project) + Selection(Slot(dir, n - 1), tenant, project)
  }

  function Cut(events: seq<AuditEvent>, limit: int): seq<AuditEvent> {
    if limit > 0 && |events| > limit then events[..limit] else events
  }

  /** What a listing for validated names returns. */
  ghost function ListedIn(dir: Dir, cfg: Config, enc: AuditEvent -> nat, tenant: string, project: string,
      limit: int): Listing {
    if !RingReadable(dir, cfg, enc) then Unreadable
    else Events(Cut(StableSort(ReadUpTo(dir, Slots(cfg) + 1, tenant, project), Newer), limit))
  }

  /** What a listing returns. */
  ghost function Listed(dir: Dir, cfg: Config, enc: AuditEvent -> nat, tenant: string, project: string,
      limit: int): Listing {
    match (ScopeName(tenant), ScopeName(project))
    case (Some(t), Some(p)) => ListedIn(dir, cfg, enc, t, p, limit)
    case _ => Refused
  }

  class AuditLog {
    var dir: Dir
    const cfg: Config
    const enc: AuditEvent -> nat

    constructor (cfg: Config, enc: AuditEvent -> nat)
      ensures dir == map[] && this.cfg == cfg && this.enc == enc
    {
      dir := map[];
      this.cfg, this.enc := cfg, enc;
    }

    /**
     Shifts the ring when the active file is full. The first `ops` renames and removals succeed, the next one fails.
     */
    method Rotate(ops: nat) returns (ok: bool)
      modifies this
      ensures Rotation(old(dir), dir, cfg, enc, ok, ops > 0)
    {
      if !NeedsRotation(dir, cfg, enc) { return true; }
      var m := if cfg.maxFiles < 1 then 1 else cfg.maxFiles;
      var left := ops;
      ghost var before := dir;
      var i := m - 1;
      DropLast(before, m);
      while i >= 1
        invariant 0 <= i <= m - 1
        invariant 0 <= left <= ops && (left == ops ==> dir == before)
        invariant i == m - 1 ==> dir == before && left == ops
        invariant i < m - 1 ==> ShiftedTo(before, dir, i + 1, m)
      {
        if i == m - 1 && m in dir {
          if left == 0 { return false; }
          dir, left := dir - {m}, left - 1;
        }
        ghost var gap: nat := i + 1;
        assert ShiftedTo(before, dir, gap, Slots(cfg));
        MoveGap(before, dir, i, m);
        if i in dir {
          if left == 0 { return false; }
          dir, left := (dir - {i})[i + 1 := dir[i]], left - 1;
        }
        i := i - 1;
      }
      if m > 1 { MoveGap(before, dir, 0, m); }
      ghost var first: nat := 1;
      assert m > 1 ==> ShiftedTo(before, dir, first, Slots(cfg));
      if left == 0 { return false; }
      if m == 1 {
        MoveGap(before, dir - {1}, 0, m);
        assert (dir - {1} - {0})[1 := dir[0]] == (dir - {0})[1 := dir[0]];
      }
      dir := (dir - {0})[1 := dir[0]];
      ok := true;
    }

    /**
     Prepares the directory, rotates, then opens the active file and appends one line. `inFile` says whether the line
     is in the file; the event is returned when the file could be closed as well.
     */
    method Append(e: AuditEvent, nowDate: string, nowId: string, ops: nat, end: WriteEnd)
      returns (stored: Option<AuditEvent>, inFile: bool)
      modifies this
      ensures Normalized(e, nowDate, nowId).None? ==> stored.None? && !inFile && dir == old(dir)
      ensures Normalized(e, nowDate, nowId).Some? ==>
        AppendStep(old(dir), dir, Normalized(e, nowDate, nowId).value, cfg, enc, inFile, ops > 0 && end != PrepareFails)
      ensures stored == if inFile && end == Written then Normalized(e, nowDate, nowId) else None
      ensures inFile ==> end == Written || end == CloseFails
    {
      stored, inFile := None, false;
      var event := Normalized(e, nowDate, nowId);
      if event.None? { return; }
      if end == PrepareFails {
        assert Rotation(dir, dir, cfg, enc, !NeedsRotation(dir, cfg, enc), false);
        return;
      }
      var ok := Rotate(ops);
      ghost var mid := dir;
      assert Rotation(old(dir), mid, cfg, enc, ok, ops > 0);
      if !ok || end == OpenFails { return; }
      dir := Opened(dir);
      if end == WriteFails { return; }
      dir := dir[0 := dir[0] + [event.value]];
      assert dir == AppendTo(mid, event.value);
      inFile := true;
      if end == Written { stored := event; }
    }

    method ReadShard(slot: nat, tenant: string, project: string) returns (r: Listing)
      ensures r ==
        if ReadableShard(Slot(dir, slot), enc) then Events(Selection(Slot(dir, slot), tenant, project)) else Unreadable
    {
      var shard := if slot in dir then dir[slot] else [];
      var events := [];
      var i := 0;
      while i < |shard|
        invariant 0 <= i <= |shard|
        invariant forall k | 0 <= k < i :: Readable(shard[k], enc)
        invariant events == Selection(shard[..i], tenant, project)
      {
        if !Readable(shard[i], enc) { return Unreadable; }
        assert shard[..i + 1][..i] == shard[..i];
        if Selected(shard[i], tenant, project) { events := events + [shard[i]]; }
        i := i + 1;
      }
      assert shard[..i] == shard;
      r := Events(events);
    }

    /** Reads the active file, then every rotation in numeric order. */
    method ReadAll(tenant: string, project: string) returns (r: Listing)
      ensures r ==
        if RingReadable(dir, cfg, enc) then Events(ReadUpTo(dir, Slots(cfg) + 1, tenant, project)) else Unreadable
    {
      var m := if cfg.maxFiles < 1 then 1 else cfg.maxFiles;
      var events := [];
      var i := 0;
      while i <= m
        invariant 0 <= i <= m + 1
        invariant forall k: nat | k < i :: ReadableShard(Slot(dir, k), enc)
        invariant events == ReadUpTo(dir, i, tenant, project)
      {
        var shard := ReadShard(i, tenant, project);
        if shard.Unreadable? { return Unreadable; }
        events := events + shard.events;
        i := i + 1;
      }
      r := Events(events);
    }

    /** Merges every shard, sorts newest first and cuts to `limit`. */
    method List(tenant: string, project: string, limit: int) returns (r: Listing)
      ensures r == Listed(dir, cfg, enc, tenant, project, limit)
    {
      var t := ScopeName(tenant);
      var p := ScopeName(project);
      if t.None? || p.None? { return Refused; }
      r := ReadAll(t.value, p.value);
      if r.Events? {
        var events := StableSort(r.events, Newer);
        r := Events(Cut(events, limit));
      }
    }
  }
}
