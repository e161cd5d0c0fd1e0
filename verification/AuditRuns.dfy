/**
 Runs of the audit log: any sequence of appends by one writer, starting from an
 empty directory, with or without failing file operations.
 */
module AuditRuns {
  import opened Text
  import opened Sorting
  import opened AuditRing

  type Encoding = AuditEvent -> nat

  /**
   One append attempt: the event, whether its line is in the file, whether the first operation of a rotation worked, and
   the directory it left.
   */
  datatype Attempt = Attempt(event: AuditEvent, ok: bool, started: bool, after: Dir)

  ghost predicate Leads(cfg: Config, enc: Encoding, dir: Dir, attempts: seq<Attempt>, end: Dir)
    decreases |attempts|
  {
    if attempts == [] then dir == end
    else
      && AppendStep(dir, attempts[0].after, attempts[0].event, cfg, enc, attempts[0].ok, attempts[0].started)
      && Leads(cfg, enc, attempts[0].after, attempts[1..], end)
  }

  /** Everything a run put in the file, in order. */
  function Appended(attempts: seq<Attempt>): seq<AuditEvent> {
    if attempts == [] then []
    else (if attempts[0].ok then [attempts[0].event] else []) + Appended(attempts[1..])
  }

  // ---- What a rotation and an append do to the retained events ----

  lemma {:induction false} RetainedShift(before: Dir, after: Dir, gap: nat, n: nat, m: nat)
    requires ShiftedTo(before, after, gap, m) && gap <= n <= m && n >= 1
    ensures Retained(after, n) == Retained(before, n - 1)
  {
    assert Came(before, after, n, gap, m);
    if n == gap {
      RetainedSame(before, after, n - 1, gap, m);
    } else if n > 1 {
      RetainedShift(before, after, gap, n - 1, m);
    } else {
      assert Came(before, after, 0, gap, m);
    }
  }

  lemma {:induction false} RetainedSame(before: Dir, after: Dir, n: nat, gap: nat, m: nat)
    requires ShiftedTo(before, after, gap, m) && n < gap
    ensures Retained(after, n) == Retained(before, n)
  {
    assert Came(before, after, n, gap, m);
    if n > 0 { RetainedSame(before, after, n - 1, gap, m); }
  }

  lemma {:induction false} RetainedAppend(dir: Dir, e: AuditEvent, n: nat)
    ensures Retained(AppendTo(dir, e), n) == Retained(dir, n) + [e]
  {
    if n > 0 { RetainedAppend(dir, e, n - 1); }
  }

  /** A rotation that started moves every slot on, or leaves a gap that the oldest slot's place makes up for. */
  lemma RotationRetains(before: Dir, after: Dir, cfg: Config, enc: Encoding, ok: bool, started: bool)
    requires Rotation(before, after, cfg, enc, ok, started)
    ensures Retained(after, Slots(cfg)) ==
      Retained(before, if NeedsRotation(before, cfg, enc) && started then Slots(cfg) - 1 else Slots(cfg))
  {
    if NeedsRotation(before, cfg, enc) && started {
      var gap: nat :| gap <= Slots(cfg) && ShiftedTo(before, after, gap, Slots(cfg));
      RetainedShift(before, after, gap, Slots(cfg), Slots(cfg));
    }
  }

  // ---- The invariant of every run ----

  /** A rotated shard is full; any shard was below the limit before its last line; only the active file can be empty. */
  predicate ShardInv(i: nat, shard: Shard, cfg: Config, enc: Encoding) {
    && (i >= 1 ==> shard != [] && cfg.maxBytes > 0 && Bytes(shard, enc) >= cfg.maxBytes)
    && (cfg.maxBytes > 0 && shard != [] ==> Bytes(shard[..|shard| - 1], enc) < cfg.maxBytes)
  }

  ghost predicate RingInv(cfg: Config, enc: Encoding, dir: Dir, history: seq<AuditEvent>, dropped: nat) {
    && (forall i: nat | i in dir :: i <= Slots(cfg) && ShardInv(i, dir[i], cfg, enc))
    && dropped <= |history|
    && Retained(dir, Slots(cfg)) == history[dropped..]
    && (cfg.maxBytes <= 0 ==> dropped == 0)
  }

  lemma ShiftKeepsShards(before: Dir, after: Dir, cfg: Config, enc: Encoding, gap: nat)
    requires ShiftedTo(before, after, gap, Slots(cfg)) && NeedsRotation(before, cfg, enc)
    requires forall i: nat | i in before :: i <= Slots(cfg) && ShardInv(i, before[i], cfg, enc)
    ensures forall i: nat | i in after :: i <= Slots(cfg) && ShardInv(i, after[i], cfg, enc)
  {
    forall i: nat | i in after
      ensures i <= Slots(cfg) && ShardInv(i, after[i], cfg, enc)
    {
      assert Came(before, after, i, gap, Slots(cfg));
    }
  }

  lemma RotationKeepsShards(before: Dir, after: Dir, cfg: Config, enc: Encoding, ok: bool, started: bool)
    requires Rotation(before, after, cfg, enc, ok, started)
    requires forall i: nat | i in before :: i <= Slots(cfg) && ShardInv(i, before[i], cfg, enc)
    ensures forall i: nat | i in after :: i <= Slots(cfg) && ShardInv(i, after[i], cfg, enc)
  {
    if NeedsRotation(before, cfg, enc) && started {
      var gap: nat :| gap <= Slots(cfg) && ShiftedTo(before, after, gap, Slots(cfg));
      ShiftKeepsShards(before, after, cfg, enc, gap);
    }
  }

  /** The directory between the rotation of an append and its write. */
  lemma AppendMid(cfg: Config, enc: Encoding, dir: Dir, e: AuditEvent, ok: bool, started: bool, after: Dir)
    returns (mid: Dir, rotated: bool)
    requires AppendStep(dir, after, e, cfg, enc, ok, started)
    ensures Rotation(dir, mid, cfg, enc, rotated, started) && (ok ==> rotated)
    ensures if ok then after == AppendTo(mid, e) else after == mid || (rotated && after == Opened(mid))
  {
    if !ok && Rotation(dir, after, cfg, enc, false, started) {
      mid, rotated := after, false;
    } else {
      mid :| Rotation(dir, mid, cfg, enc, true, started) &&
        (if ok then after == AppendTo(mid, e) else after == mid || after == Opened(mid));
      rotated := true;
    }
  }

  lemma {:induction false} RetainedOpened(dir: Dir, n: nat)
    ensures Retained(Opened(dir), n) == Retained(dir, n)
  {
    if n > 0 { RetainedOpened(dir, n - 1); }
  }

  /** What an append leaves of the retained events: all, or all but the oldest slot's, and its own. */
  lemma AppendRetains(cfg: Config, enc: Encoding, dir: Dir, e: AuditEvent, ok: bool, started: bool, after: Dir)
    requires AppendStep(dir, after, e, cfg, enc, ok, started)
    ensures var m := Slots(cfg);
      Retained(after, m) ==
      Retained(dir, if NeedsRotation(dir, cfg, enc) && started then m - 1 else m) + (if ok then [e] else [])
  {
    var m := Slots(cfg);
    var mid, rotated := AppendMid(cfg, enc, dir, e, ok, started, after);
    RetainedAppend(mid, e, m);
    RetainedOpened(mid, m);
    RotationRetains(dir, mid, cfg, enc, rotated, started);
  }

  lemma AppendKeepsShards(cfg: Config, enc: Encoding, dir: Dir, e: AuditEvent, ok: bool, started: bool, after: Dir)
    requires AppendStep(dir, after, e, cfg, enc, ok, started)
    requires forall i: nat | i in dir :: i <= Slots(cfg) && ShardInv(i, dir[i], cfg, enc)
    ensures forall i: nat | i in after :: i <= Slots(cfg) && ShardInv(i, after[i], cfg, enc)
  {
    var mid, rotated := AppendMid(cfg, enc, dir, e, ok, started, after);
    RotationKeepsShards(dir, mid, cfg, enc, rotated, started);
    if ok { AppendedShard(dir, mid, e, cfg, enc, started); }
  }

  /** How many more events are gone after one append. */
  function Gone(cfg: Config, enc: Encoding, dir: Dir, started: bool): nat {
    if NeedsRotation(dir, cfg, enc) && started then |Slot(dir, Slots(cfg))| else 0
  }

  lemma AppendKeepsRing(cfg: Config, enc: Encoding, dir: Dir, e: AuditEvent, ok: bool, started: bool, after: Dir,
                        history: seq<AuditEvent>, dropped: nat)
    requires RingInv(cfg, enc, dir, history, dropped) && AppendStep(dir, after, e, cfg, enc, ok, started)
    ensures RingInv(cfg, enc, after, if ok then history + [e] else history, dropped + Gone(cfg, enc, dir, started))
  {
    var m := Slots(cfg);
    AppendKeepsShards(cfg, enc, dir, e, ok, started, after);
    AppendRetains(cfg, enc, dir, e, ok, started, after);
    SuffixMoves(history, dropped, Slot(dir, m), Retained(dir, m - 1), NeedsRotation(dir, cfg, enc) && started,
                if ok then [e] else []);
    assert history + [] == history;
  }

  lemma SuffixMoves(history: seq<AuditEvent>, dropped: nat, slot: Shard, rest: Shard, moves: bool, more: Shard)
    requires dropped <= |history| && history[dropped..] == slot + rest
    ensures var gone := dropped + if moves then |slot| else 0;
      gone <= |history| && (history + more)[gone..] == (if moves then rest else slot + rest) + more
  {
    assert history == history[..dropped] + (slot + rest);
    assert |history| == dropped + |slot| + |rest|;
  }

  lemma AppendedShard(dir: Dir, mid: Dir, e: AuditEvent, cfg: Config, enc: Encoding, started: bool)
    requires Rotation(dir, mid, cfg, enc, true, started)
    requires forall i: nat | i in mid :: i <= Slots(cfg) && ShardInv(i, mid[i], cfg, enc)
    ensures forall i: nat | i in AppendTo(mid, e) :: i <= Slots(cfg) && ShardInv(i, AppendTo(mid, e)[i], cfg, enc)
  {
    var shard := Slot(mid, 0) + [e];
    assert shard[..|shard| - 1] == Slot(mid, 0);
    if NeedsRotation(dir, cfg, enc) {
      assert Came(dir, mid, 0, 0, Slots(cfg));
    }
  }

  lemma AppendedFirst(history: seq<AuditEvent>, attempts: seq<Attempt>)
    requires attempts != []
    ensures history + Appended(attempts)
         == (if attempts[0].ok then history + [attempts[0].event] else history) + Appended(attempts[1..])
  {
  }

  lemma FirstKeepsRing(cfg: Config, enc: Encoding, dir: Dir, attempts: seq<Attempt>, end: Dir,
                       history: seq<AuditEvent>, dropped: nat) returns (h: seq<AuditEvent>, gone: nat)
    requires RingInv(cfg, enc, dir, history, dropped) && Leads(cfg, enc, dir, attempts, end) && attempts != []
    ensures gone >= dropped && RingInv(cfg, enc, attempts[0].after, h, gone)
    ensures h + Appended(attempts[1..]) == history + Appended(attempts)
    ensures Leads(cfg, enc, attempts[0].after, attempts[1..], end)
  {
    var a := attempts[0];
    AppendKeepsRing(cfg, enc, dir, a.event, a.ok, a.started, a.after, history, dropped);
    AppendedFirst(history, attempts);
    h, gone := if a.ok then history + [a.event] else history, dropped + Gone(cfg, enc, dir, a.started);
  }

  lemma {:induction false} RunKeepsRing(cfg: Config, enc: Encoding, dir: Dir, attempts: seq<Attempt>, end: Dir,
                                        history: seq<AuditEvent>, dropped: nat) returns (gone: nat)
    requires RingInv(cfg, enc, dir, history, dropped) && Leads(cfg, enc, dir, attempts, end)
    ensures gone >= dropped && RingInv(cfg, enc, end, history + Appended(attempts), gone)
    decreases |attempts|
  {
    if attempts == [] {
      assert history + Appended(attempts) == history;
      gone := dropped;
    } else {
      var h, now := FirstKeepsRing(cfg, enc, dir, attempts, end, history, dropped);
      gone := RunKeepsRing(cfg, enc, attempts[0].after, attempts[1..], end, h, now);
    }
  }

  /**
   Every run from an empty directory, whatever operations fail: the ring uses
   slots 0 to M only, read oldest slot first it is a suffix of everything
   stored, every rotated shard holds at least `maxBytes`, and every shard was
   below `maxBytes` before its last line. Without a byte limit nothing is lost.
   */
  lemma RingIsSuffix(cfg: Config, enc: Encoding, attempts: seq<Attempt>, end: Dir) returns (dropped: nat)
    requires Leads(cfg, enc, map[], attempts, end)
    ensures forall i: nat | i in end :: i <= Slots(cfg) && ShardInv(i, end[i], cfg, enc)
    ensures dropped <= |Appended(attempts)| && Retained(end, Slots(cfg)) == Appended(attempts)[dropped..]
    ensures cfg.maxBytes <= 0 ==> dropped == 0
  {
    EmptyRetained(Slots(cfg));
    dropped := RunKeepsRing(cfg, enc, map[], attempts, end, [], 0);
    assert [] + Appended(attempts) == Appended(attempts);
  }

  lemma {:induction false} EmptyRetained(n: nat)
    ensures Retained(map[], n) == []
  {
    if n > 0 { EmptyRetained(n - 1); }
  }

  // ---- Runs in which no file operation fails ----

  /** Rotations fill slots 1 to `k` and no other. */
  ghost predicate GapFree(dir: Dir, k: nat) {
    forall i: nat | i >= 1 :: i in dir <==> i <= k
  }

  lemma AppendKeepsGapFree(cfg: Config, enc: Encoding, dir: Dir, e: AuditEvent, started: bool, after: Dir, k: nat)
    returns (k': nat)
    requires AppendStep(dir, after, e, cfg, enc, true, started)
    requires GapFree(dir, k) && k <= Slots(cfg)
    ensures GapFree(after, k') && k <= k' <= Slots(cfg)
    ensures NeedsRotation(dir, cfg, enc) ==> k' == if k < Slots(cfg) then k + 1 else k
  {
    var m := Slots(cfg);
    var mid: Dir :| Rotation(dir, mid, cfg, enc, true, started) && after == AppendTo(mid, e);
    k' := if NeedsRotation(dir, cfg, enc) && k < m then k + 1 else k;
    forall i: nat | i >= 1
      ensures i in after <==> i <= k'
    {
      if NeedsRotation(dir, cfg, enc) {
        assert Came(dir, mid, i, 0, m);
      }
    }
  }

  lemma {:induction false} CleanRunKeepsRing(cfg: Config, enc: Encoding, dir: Dir, attempts: seq<Attempt>, end: Dir,
                                             history: seq<AuditEvent>, dropped: nat, k: nat) returns (gone: nat,
                                               k': nat)
    requires RingInv(cfg, enc, dir, history, dropped) && Leads(cfg, enc, dir, attempts, end)
    requires forall i | 0 <= i < |attempts| :: attempts[i].ok
    requires GapFree(dir, k) && k <= Slots(cfg) && (dropped > 0 ==> k == Slots(cfg))
    ensures RingInv(cfg, enc, end, history + Appended(attempts), gone)
    ensures GapFree(end, k') && k' <= Slots(cfg) && (gone > 0 ==> k' == Slots(cfg))
    decreases |attempts|
  {
    if attempts == [] {
      assert history + Appended(attempts) == history;
      gone, k' := dropped, k;
    } else {
      var a := attempts[0];
      var more := Gone(cfg, enc, dir, a.started);
      AppendKeepsRing(cfg, enc, dir, a.event, a.ok, a.started, a.after, history, dropped);
      var next := AppendKeepsGapFree(cfg, enc, dir, a.event, a.started, a.after, k);
      AppendedFirst(history, attempts);
      gone, k' := CleanRunKeepsRing(cfg, enc, a.after, attempts[1..], end, history + [a.event], dropped + more, next);
    }
  }

  function RotatedBytes(dir: Dir, n: nat, enc: Encoding): nat {
    if n == 0 then 0 else Bytes(Slot(dir, n), enc) + RotatedBytes(dir, n - 1, enc)
  }

  lemma {:induction false} FullSlots(cfg: Config, enc: Encoding, dir: Dir, n: nat)
    requires forall i: nat | 1 <= i <= n :: i in dir && Bytes(dir[i], enc) >= cfg.maxBytes
    requires cfg.maxBytes >= 0
    ensures RotatedBytes(dir, n, enc) >= n * cfg.maxBytes
  {
    if n > 0 {
      FullSlots(cfg, enc, dir, n - 1);
      assert n * cfg.maxBytes == (n - 1) * cfg.maxBytes + cfg.maxBytes;
    }
  }

  /**
   When no operation fails the rotations have no gap, and an event is dropped
   only once all M rotated slots exist and each holds at least `maxBytes`.
   */
  lemma CleanRing(cfg: Config, enc: Encoding, attempts: seq<Attempt>, end: Dir) returns (dropped: nat, k: nat)
    requires Leads(cfg, enc, map[], attempts, end)
    requires forall i | 0 <= i < |attempts| :: attempts[i].ok
    ensures dropped <= |Appended(attempts)| && Retained(end, Slots(cfg)) == Appended(attempts)[dropped..]
    ensures GapFree(end, k) && k <= Slots(cfg)
    ensures dropped > 0 ==>
      k == Slots(cfg) && (forall i: nat | 1 <= i <= k :: i in end && Bytes(end[i], enc) >= cfg.maxBytes)
      && RotatedBytes(end, k, enc) >= Slots(cfg) * cfg.maxBytes
  {
    EmptyRetained(Slots(cfg));
    dropped, k := CleanRunKeepsRing(cfg, enc, map[], attempts, end, [], 0, 0);
    assert [] + Appended(attempts) == Appended(attempts);
    if dropped > 0 { FullSlots(cfg, enc, end, k); }
  }

  lemma RotateThenAppend(cfg: Config, enc: Encoding, dir: Dir, mid: Dir, e: AuditEvent, after: Dir, gap: nat)
    requires NeedsRotation(dir, cfg, enc) && gap <= Slots(cfg) && ShiftedTo(dir, mid, gap, Slots(cfg))
    requires after == if gap == 0 then AppendTo(mid, e) else mid
    ensures AppendStep(dir, after, e, cfg, enc, gap == 0, true)
  {
    assert Rotation(dir, mid, cfg, enc, gap == 0, true);
  }

  // ---- Dropping early ----

  /** How many retained events an append loses. */
  function Lost(cfg: Config, dir: Dir, a: Attempt): int {
    |Retained(dir, Slots(cfg))| + (if a.ok then 1 else 0) - |Retained(a.after, Slots(cfg))|
  }

  ghost predicate FreeSlot(cfg: Config, dir: Dir) {
    exists i: nat :: 1 <= i <= Slots(cfg) && i !in dir
  }

  /** Events are lost although a rotated slot is free. */
  ghost predicate DropsEarly(cfg: Config, dir: Dir, a: Attempt) {
    Lost(cfg, dir, a) > 0 && FreeSlot(cfg, dir)
  }

  /** The directory append `i` of a run meets. */
  function DirAt(dir: Dir, attempts: seq<Attempt>, i: nat): Dir
    requires i <= |attempts|
  {
    if i == 0 then dir else attempts[i - 1].after
  }

  /**
   An append loses events exactly when it needs to rotate, the first operation of the rotation works, and the last slot
   is taken; that first operation is then the removal of the last slot, or, with one slot, the rename onto it.
   */
  lemma LossExactly(cfg: Config, enc: Encoding, dir: Dir, a: Attempt)
    requires AppendStep(dir, a.after, a.event, cfg, enc, a.ok, a.started)
    requires forall i: nat | i in dir :: i <= Slots(cfg) && ShardInv(i, dir[i], cfg, enc)
    ensures Lost(cfg, dir, a) > 0 <==> NeedsRotation(dir, cfg, enc) && a.started && Slots(cfg) in dir
    ensures Lost(cfg, dir, a) == Gone(cfg, enc, dir, a.started)
  {
    AppendRetains(cfg, enc, dir, a.event, a.ok, a.started, a.after);
    assert Slots(cfg) in dir ==> Slot(dir, Slots(cfg)) != [];
  }

  lemma {:induction false} LeadsPrefix(cfg: Config, enc: Encoding, dir: Dir, attempts: seq<Attempt>, end: Dir, n: nat)
    requires Leads(cfg, enc, dir, attempts, end) && n <= |attempts|
    ensures Leads(cfg, enc, dir, attempts[..n], DirAt(dir, attempts, n))
    ensures n < |attempts| ==>
      var a := attempts[n]; AppendStep(DirAt(dir, attempts, n), a.after, a.event, cfg, enc, a.ok, a.started)
    decreases n
  {
    if n > 0 {
      assert attempts[..n][1..] == attempts[1..][..n - 1];
      LeadsPrefix(cfg, enc, attempts[0].after, attempts[1..], end, n - 1);
      assert DirAt(attempts[0].after, attempts[1..], n - 1) == DirAt(dir, attempts, n);
    }
  }

  /**
   A run from an empty directory loses events while a slot is free exactly when some append that started a rotation met
   a directory whose last slot was taken and another was free.
   */
  lemma EarlyDropExactly(cfg: Config, enc: Encoding, attempts: seq<Attempt>, end: Dir)
    requires Leads(cfg, enc, map[], attempts, end)
    ensures (exists i: nat :: i < |attempts| && DropsEarly(cfg, DirAt(map[], attempts, i), attempts[i])) <==>
      (exists i: nat :: i < |attempts| && MeetsGap(cfg, enc, DirAt(map[], attempts, i), attempts[i]))
  {
    forall i: nat | i < |attempts|
      ensures DropsEarly(cfg, DirAt(map[], attempts, i), attempts[i]) <==>
        MeetsGap(cfg, enc, DirAt(map[], attempts, i), attempts[i])
    {
      LeadsPrefix(cfg, enc, map[], attempts, end, i);
      var dropped := RingIsSuffix(cfg, enc, attempts[..i], DirAt(map[], attempts, i));
      LossExactly(cfg, enc, DirAt(map[], attempts, i), attempts[i]);
    }
  }

  ghost predicate MeetsGap(cfg: Config, enc: Encoding, dir: Dir, a: Attempt) {
    NeedsRotation(dir, cfg, enc) && a.started && Slots(cfg) in dir && FreeSlot(cfg, dir)
  }

  /** While every append so far is in the file no directory has such a gap, so nothing is dropped early. */
  lemma CleanRunMeetsNoGap(cfg: Config, enc: Encoding, attempts: seq<Attempt>, end: Dir, i: nat)
    requires Leads(cfg, enc, map[], attempts, end) && i < |attempts|
    requires forall j | 0 <= j < i :: attempts[j].ok
    ensures !MeetsGap(cfg, enc, DirAt(map[], attempts, i), attempts[i])
  {
    LeadsPrefix(cfg, enc, map[], attempts, end, i);
    var dropped, k := CleanRing(cfg, enc, attempts[..i], DirAt(map[], attempts, i));
  }

  lemma LeadsOne(cfg: Config, enc: Encoding, dir: Dir, a: Attempt, rest: seq<Attempt>, end: Dir)
    requires AppendStep(dir, a.after, a.event, cfg, enc, a.ok, a.started) && Leads(cfg, enc, a.after, rest, end)
    ensures Leads(cfg, enc, dir, [a] + rest, end)
  {
    assert ([a] + rest)[1..] == rest;
  }

  const TINY := Config(1, 2)

  function OneByte(e: AuditEvent): nat { 0 }

  /** Two stored events, a rotation that fails after moving `.1` to `.2`, and one more event. */
  function EarlyDrop(a: AuditEvent, b: AuditEvent, c: AuditEvent): seq<Attempt> {
    [Attempt(a, true, true, map[0 := [a]]),
     Attempt(b, true, true, map[1 := [a], 0 := [b]]),
     Attempt(c, false, true, map[2 := [a], 0 := [b]]),
     Attempt(c, true, true, map[1 := [b], 0 := [c]])]
  }

  lemma FirstAppend(e: AuditEvent)
    ensures AppendStep(map[], map[0 := [e]], e, TINY, OneByte, true, true)
  {
    assert Slot(map[], 0) + [e] == [e];
    assert Rotation(map[], map[], TINY, OneByte, true, true);
    assert AppendTo(map[], e) == map[0 := [e]];
  }

  /** From a ring whose active file is `[x]`, a complete rotation with `kept` in slot 2 or none. */
  lemma FullRotation(dir: Dir, x: AuditEvent, e: AuditEvent)
    requires 0 in dir && dir[0] == [x] && 1 !in dir && forall j | j in dir :: j <= 2
    ensures AppendStep(dir, map[1 := [x], 0 := [e]], e, TINY, OneByte, true, true)
  {
    var mid: Dir := map[1 := [x]];
    assert Bytes([x], OneByte) >= 1;
    assert ShiftedTo(dir, mid, 0, 2) by { forall j: nat ensures Came(dir, mid, j, 0, 2) {} }
    assert Slot(mid, 0) + [e] == [e];
    assert AppendTo(mid, e) == map[1 := [x], 0 := [e]];
    RotateThenAppend(TINY, OneByte, dir, mid, e, AppendTo(mid, e), 0);
  }

  lemma HalfRotation(x: AuditEvent, y: AuditEvent, e: AuditEvent)
    ensures AppendStep(map[1 := [x], 0 := [y]], map[2 := [x], 0 := [y]], e, TINY, OneByte, false, true)
  {
    var dir: Dir, mid: Dir := map[1 := [x], 0 := [y]], map[2 := [x], 0 := [y]];
    assert Bytes([y], OneByte) >= 1;
    assert ShiftedTo(dir, mid, 1, 2) by { forall j: nat ensures Came(dir, mid, j, 1, 2) {} }
    RotateThenAppend(TINY, OneByte, dir, mid, e, mid, 1);
  }

  lemma EarlyDropStores(a: AuditEvent, b: AuditEvent, c: AuditEvent)
    ensures Appended(EarlyDrop(a, b, c)) == [a, b, c]
  {
    var all := EarlyDrop(a, b, c);
    assert all[1..][1..][1..] == [all[3]];
    assert Appended([all[3]]) == [c] by { assert [all[3]][1..] == []; }
    assert Appended(all[1..][1..]) == [c];
    assert Appended(all[1..]) == [b, c];
  }

  lemma LastDropsEarly(a: AuditEvent, b: AuditEvent, c: AuditEvent)
    ensures DropsEarly(TINY, DirAt(map[], EarlyDrop(a, b, c), 3), EarlyDrop(a, b, c)[3])
  {
    var one: nat, dir, after := 1, EarlyDrop(a, b, c)[2].after, EarlyDrop(a, b, c)[3].after;
    assert one !in dir;
    assert Retained(dir, 0) == [b] && Retained(dir, 1) == Slot(dir, 1) + Retained(dir, 0);
    assert Retained(dir, 2) == Slot(dir, 2) + Retained(dir, 1) && |Retained(dir, 2)| == 2;
    assert Retained(after, 0) == [c] && Retained(after, 1) == Slot(after, 1) + Retained(after, 0);
    assert Retained(after, 2) == Slot(after, 2) + Retained(after, 1) && |Retained(after, 2)| == 2;
  }

  /**
   An interrupted rotation leaves a gap, and the next one drops the oldest slot
   although a slot is free: with two rotations of one byte, an event is lost
   while slot 2 ends up empty.
   */
  lemma InterruptedRotationDropsEarly(a: AuditEvent, b: AuditEvent, c: AuditEvent)
    ensures Leads(TINY, OneByte, map[], EarlyDrop(a, b, c), map[1 := [b], 0 := [c]])
    ensures Appended(EarlyDrop(a, b, c)) == [a, b, c]
    ensures Retained(map[1 := [b], 0 := [c]], 2) == [b, c]
    ensures DropsEarly(TINY, DirAt(map[], EarlyDrop(a, b, c), 3), EarlyDrop(a, b, c)[3])
  {
    LastDropsEarly(a, b, c);
    var all := EarlyDrop(a, b, c);
    FirstAppend(a);
    FullRotation(map[0 := [a]], a, b);
    HalfRotation(a, b, c);
    FullRotation(map[2 := [a], 0 := [b]], b, c);
    LeadsOne(TINY, OneByte, all[2].after, all[3], [], all[3].after);
    LeadsOne(TINY, OneByte, all[1].after, all[2], [all[3]] + [], all[3].after);
    LeadsOne(TINY, OneByte, all[0].after, all[1], [all[2]] + ([all[3]] + []), all[3].after);
    LeadsOne(TINY, OneByte, map[], all[0], [all[1]] + ([all[2]] + ([all[3]] + [])), all[3].after);
    assert all == [all[0]] + ([all[1]] + ([all[2]] + ([all[3]] + [])));
    EarlyDropStores(a, b, c);
    assert Retained(map[1 := [b], 0 := [c]], 1) == [b, c];
  }

  // ---- Listing a ring ----

  lemma {:induction false} ReadIsRetained(dir: Dir, n: nat, tenant: string, project: string)
    ensures multiset(ReadUpTo(dir, n + 1, tenant, project)) == multiset(Selection(Retained(dir, n), tenant, project))
  {
    var slot := Selection(Slot(dir, n), tenant, project);
    var before := ReadUpTo(dir, n, tenant, project);
    assert ReadUpTo(dir, n + 1, tenant, project) == before + slot;
    if n == 0 {
      assert before + slot == slot;
    } else {
      ReadIsRetained(dir, n - 1, tenant, project);
      SelectionConcat(Slot(dir, n), Retained(dir, n - 1), tenant, project);
      Exchanged(before, slot, Selection(Retained(dir, n - 1), tenant, project));
    }
  }

  lemma Exchanged(a: seq<AuditEvent>, b: seq<AuditEvent>, c: seq<AuditEvent>)
    requires multiset(a) == multiset(c)
    ensures multiset(a + b) == multiset(b + c)
  {
  }

  lemma {:induction false} SelectionConcat(s: Shard, t: Shard, tenant: string, project: string)
    ensures Selection(s + t, tenant, project) == Selection(s, tenant, project) + Selection(t, tenant, project)
  {
    if t == [] {
      assert s + t == s;
    } else {
      assert (s + t)[..|s + t| - 1] == s + t[..|t| - 1];
      SelectionConcat(s, t[..|t| - 1], tenant, project);
    }
  }

  /** Every element of `top` comes before or ties with every element of `rest`. */
  ghost predicate Dominates(top: seq<AuditEvent>, rest: seq<AuditEvent>) {
    forall a, b | a in top && b in rest :: !Newer(b, a)
  }

  /** The first `limit` of a sorted list, and what is left out. */
  lemma CutSorted(all: seq<AuditEvent>, limit: int) returns (top: seq<AuditEvent>, rest: seq<AuditEvent>)
    requires SortedBy(all, Newer)
    ensures top == Cut(all, limit)
    ensures top + rest == all && SortedBy(top, Newer) && Dominates(top, rest)
    ensures if limit > 0 then |top| <= limit && (rest != [] ==> |top| == limit) else rest == []
  {
    if limit > 0 && |all| > limit {
      top, rest := all[..limit], all[limit..];
      SortedSplit(all, limit);
    } else {
      top, rest := all, [];
    }
  }

  /** The names a listing is asked for: empty for no filter, or an identifier. */
  predicate Name(s: string) {
    s == "" || IsIdentifier(s)
  }

  lemma NameIsScope(s: string)
    requires Name(s)
    ensures ScopeName(s) == Some(s)
  {
    if s != "" { assert !IsSpace(s[0]); }
  }

  /** `events` is the first `limit` of the retained events that pass the filter, newest first; `rest` is left out. */
  ghost predicate ExactListing(events: seq<AuditEvent>, rest: seq<AuditEvent>, retained: seq<AuditEvent>,
                               tenant: string, project: string, limit: int) {
    && multiset(events + rest) == multiset(Selection(retained, tenant, project))
    && SortedBy(events, Newer)
    && Dominates(events, rest)
    && (if limit > 0 then |events| <= limit && (rest != [] ==> |events| == limit) else rest == [])
  }

  lemma ListingOfSlots(dir: Dir, m: nat, tenant: string, project: string, limit: int)
    returns (top: seq<AuditEvent>, rest: seq<AuditEvent>)
    ensures top == Cut(StableSort(ReadUpTo(dir, m + 1, tenant, project), Newer), limit)
    ensures ExactListing(top, rest, Retained(dir, m), tenant, project, limit)
  {
    var read := ReadUpTo(dir, m + 1, tenant, project);
    NewerIsOrder();
    StableSortSorts(read, Newer);
    StableSortPermutes(read, Newer);
    top, rest := CutSorted(StableSort(read, Newer), limit);
    ReadIsRetained(dir, m, tenant, project);
  }

  /** A listing with acceptable names is not refused, and filters by exactly those names. */
  lemma ListingAccepted(cfg: Config, enc: Encoding, dir: Dir, tenant: string, project: string, limit: int)
    requires Name(tenant) && Name(project)
    ensures Listed(dir, cfg, enc, tenant, project, limit) == ListedIn(dir, cfg, enc, tenant, project, limit)
  {
    NameIsScope(tenant);
    NameIsScope(project);
  }

  /**
   In every reachable ring, a listing fails exactly when a retained line is too
   long for the reader. Otherwise, without a limit it is a permutation of the
   retained events that pass the filter, newest first; with a limit it is the
   first `limit` of these, none older than any left out.
   */
  lemma ListingIsExact(cfg: Config, enc: Encoding, attempts: seq<Attempt>, end: Dir,
                       tenant: string, project: string, limit: int) returns (dropped: nat, rest: seq<AuditEvent>)
    requires Leads(cfg, enc, map[], attempts, end)
    ensures dropped <= |Appended(attempts)| && Retained(end, Slots(cfg)) == Appended(attempts)[dropped..]
    ensures ListedIn(end, cfg, enc, tenant, project, limit) == Unreadable
       <==> exists e :: e in Appended(attempts)[dropped..] && !Readable(e, enc)
    ensures ListedIn(end, cfg, enc, tenant, project, limit) != Unreadable ==>
      && ListedIn(end, cfg, enc, tenant, project, limit).Events?
      && ExactListing(ListedIn(end, cfg, enc, tenant, project, limit).events, rest, Appended(attempts)[dropped..],
        tenant, project, limit)
  {
    dropped := RingIsSuffix(cfg, enc, attempts, end);
    RetainedReadable(end, Slots(cfg), enc);
    var top;
    top, rest := ListingOfSlots(end, Slots(cfg), tenant, project, limit);
  }

  /** How often an event is in a list. */
  function Times(s: seq<AuditEvent>, e: AuditEvent): nat {
    multiset(s)[e]
  }

  lemma {:induction false} SelectionTimes(s: Shard, tenant: string, project: string, e: AuditEvent)
    ensures Times(Selection(s, tenant, project), e) ==
      if (tenant == "" || e.tenant == tenant) && (project == "" || e.project == project) then Times(s, e) else 0
  {
    if s != [] {
      SelectionTimes(s[..|s| - 1], tenant, project, e);
      assert s == s[..|s| - 1] + [s[|s| - 1]];
    }
  }

  /**
   An exact listing and what it leaves out hold each retained event of the tenant and project asked for as often as it
   was retained, and no other event.
   */
  lemma ListsWhatWasAsked(events: seq<AuditEvent>, rest: seq<AuditEvent>, retained: seq<AuditEvent>,
                          tenant: string, project: string, limit: int, e: AuditEvent)
    requires ExactListing(events, rest, retained, tenant, project, limit)
    ensures Times(events, e) + Times(rest, e) ==
      if (tenant == "" || e.tenant == tenant) && (project == "" || e.project == project) then Times(retained, e) else 0
    ensures e in events ==> (tenant == "" || e.tenant == tenant) && (project == "" || e.project == project)
  {
    SelectionTimes(retained, tenant, project, e);
    assert Times(events + rest, e) == Times(events, e) + Times(rest, e);
    assert e in events ==> Times(events, e) > 0;
  }

  /** Listed events come newest first; of those created at the same time, the greater id first. */
  lemma ListedNewestFirst(events: seq<AuditEvent>, i: nat, j: nat)
    requires SortedBy(events, Newer) && i < j < |events|
    ensures !LexLess(events[i].createdAt, events[j].createdAt)
    ensures events[i].createdAt == events[j].createdAt ==> !LexLess(events[i].eventId, events[j].eventId)
  {
    LexOrder();
    assert !Newer(events[j], events[i]);
  }

  /** What is stored of an event: itself, with what it leaves open filled in and its names trimmed. */
  lemma StoredEvent(e: AuditEvent, nowDate: string, nowId: string)
    ensures Normalized(e, nowDate, nowId).None? <==>
      || Blank(ToLower(e.action))
      || (!Blank(e.tenant) && !IsIdentifier(TrimSpace(e.tenant)))
      || (!Blank(e.project) && !IsIdentifier(TrimSpace(e.project)))
    ensures Normalized(e, nowDate, nowId).Some? ==>
      var x := Normalized(e, nowDate, nowId).value;
      && x.action == TrimSpace(ToLower(e.action)) && x.detail == e.detail
      && x.status == (if e.status == "" then "success" else e.status)
      && x.createdAt == (if e.createdAt == "" then nowDate else e.createdAt)
      && x.eventId == (if e.eventId == "" then nowId else e.eventId)
      && x.tenant == (if Blank(e.tenant) then e.tenant else TrimSpace(e.tenant))
      && x.project == (if Blank(e.project) then e.project else TrimSpace(e.project))
  {
    IdIsTrimmed(e.tenant);
    IdIsTrimmed(e.project);
  }

  lemma IdIsTrimmed(s: string)
    ensures ValidateId(s) == if IsIdentifier(TrimSpace(s)) then Some(TrimSpace(s)) else None
  {
  }

  /** Opening makes sure there is an active file, and changes nothing that is stored. */
  lemma OpeningKeeps(dir: Dir, i: nat)
    ensures 0 in Opened(dir) && Slot(Opened(dir), i) == Slot(dir, i)
  {
  }

  /** Each line takes the bytes of its event and one more. */
  lemma {:induction false} LinesOfOneLength(shard: Shard, enc: Encoding, n: nat)
    requires forall e | e in shard :: enc(e) == n
    ensures Bytes(shard, enc) == |shard| * (n + 1)
  {
    if shard != [] {
      assert shard[|shard| - 1] in shard;
      LinesOfOneLength(shard[..|shard| - 1], enc, n);
    }
  }

  lemma SortedSplit(all: seq<AuditEvent>, n: nat)
    requires SortedBy(all, Newer) && n <= |all|
    ensures SortedBy(all[..n], Newer) && Dominates(all[..n], all[n..])
  {
    forall a, b | a in all[..n] && b in all[n..]
      ensures !Newer(b, a)
    {
      var i :| 0 <= i < n && all[i] == a;
      var j :| n <= j < |all| && all[j] == b;
    }
  }

  lemma {:induction false} RetainedReadable(dir: Dir, n: nat, enc: Encoding)
    ensures (forall e | e in Retained(dir, n) :: Readable(e, enc)) <==>
      (forall k: nat | k <= n :: ReadableShard(Slot(dir, k), enc))
  {
    if n > 0 { RetainedReadable(dir, n - 1, enc); }
  }
}
