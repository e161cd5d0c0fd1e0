/**
 The numeric order on kernel release strings, and what selects from a crawler
 inventory with it.
 */
module KernelOrder {
  import opened Sorting

  predicate IsDigit(c: char) {
    '0' <= c <= '9'
  }

  function RunLength(s: string): (n: nat)
    ensures n <= |s|
    ensures s != "" && IsDigit(s[0]) ==> n > 0
  {
    if s != "" && IsDigit(s[0]) then 1 + RunLength(s[1..]) else 0
  }

  /** The maximal runs of digits, left to right. */
  function DigitRuns(s: string): seq<string>
    decreases |s|
  {
    if s == "" then []
    else if IsDigit(s[0]) then [s[..RunLength(s)]] + DigitRuns(s[RunLength(s)..])
    else DigitRuns(s[1..])
  }

  const MAX_INT: nat := 0x7FFF_FFFF_FFFF_FFFF

  function DecimalValue(digits: string): nat {
    if digits == "" then 0
    else
      var d := digits[|digits| - 1];
      DecimalValue(digits[..|digits| - 1]) * 10 + (if IsDigit(d) then d as int - '0' as int else 0)
  }

  function Digit(d: nat): char
    requires d < 10
  {
    '0' + d as char
  }

  /** How a number is written. */
  function Decimal(n: nat): string {
    if n < 10 then [Digit(n)] else Decimal(n / 10) + [Digit(n % 10)]
  }

  /** The value `strconv.Atoi` leaves behind: numbers too large for 64 bits become the largest one. */
  function Atoi(digits: string): nat {
    var v := DecimalValue(digits);
    if v > MAX_INT then MAX_INT else v
  }

  /** The numeric components of a release. */
  function Key(release: string): seq<nat> {
    var runs := DigitRuns(release);
    seq(|runs|, i requires 0 <= i < |runs| => Atoi(runs[i]))
  }

  function CompareKeys(a: seq<nat>, b: seq<nat>): int {
    if a == [] && b == [] then 0
    else if a == [] then -1
    else if b == [] then 1
    else if a[0] > b[0] then 1
    else if a[0] < b[0] then -1
    else CompareKeys(a[1..], b[1..])
  }

  /** -1, 0 or 1 as `a` is older than, level with or newer than `b`. */
  function Compare(a: string, b: string): int {
    CompareKeys(Key(a), Key(b))
  }

  // ---- The order ----

  /** `a` is older at component `i`: they agree before it, and `a` ends there or has the smaller number. */
  predicate OlderAt(a: seq<nat>, b: seq<nat>, i: nat) {
    i <= |a| && i < |b| && a[..i] == b[..i] && (i == |a| || a[i] < b[i])
  }

  /** The comparison finds the first component that differs; it is 0 only for equal components. */
  lemma {:induction false} ComparesFirstDifference(a: seq<nat>, b: seq<nat>)
    ensures CompareKeys(a, b) in {-1, 0, 1}
    ensures CompareKeys(a, b) == 0 <==> a == b
    ensures CompareKeys(a, b) == -1 <==> exists i: nat :: OlderAt(a, b, i)
    ensures CompareKeys(a, b) == 1 <==> exists i: nat :: OlderAt(b, a, i)
  {
    CompareSign(a, b);
    CompareSign(b, a);
    CompareFlips(a, b);
  }

  lemma {:induction false} CompareSign(a: seq<nat>, b: seq<nat>)
    ensures CompareKeys(a, b) in {-1, 0, 1}
    ensures CompareKeys(a, b) == 0 <==> a == b
    ensures CompareKeys(a, b) == -1 <==> exists i: nat :: OlderAt(a, b, i)
  {
    if a == [] || b == [] {
      if a == [] && b != [] { assert OlderAt(a, b, 0); }
    } else if a[0] != b[0] {
      if a[0] < b[0] { assert OlderAt(a, b, 0); }
    } else {
      CompareSign(a[1..], b[1..]);
      assert a == [a[0]] + a[1..] && b == [b[0]] + b[1..];
      OlderAtTail(a, b);
    }
  }

  lemma OlderAtTail(a: seq<nat>, b: seq<nat>)
    requires a != [] && b != [] && a[0] == b[0]
    ensures (exists i: nat :: OlderAt(a, b, i)) <==> (exists i: nat :: OlderAt(a[1..], b[1..], i))
  {
    forall i: nat | OlderAt(a[1..], b[1..], i)
      ensures OlderAt(a, b, i + 1)
    {
      assert a[..i + 1] == [a[0]] + a[1..][..i] && b[..i + 1] == [b[0]] + b[1..][..i];
    }
    forall i: nat | OlderAt(a, b, i)
      ensures i > 0 && OlderAt(a[1..], b[1..], i - 1)
    {
      assert a[1..][..i - 1] == a[..i][1..] && b[1..][..i - 1] == b[..i][1..];
    }
  }

  lemma {:induction false} CompareFlips(a: seq<nat>, b: seq<nat>)
    ensures CompareKeys(a, b) == -CompareKeys(b, a)
  {
    if a != [] && b != [] && a[0] == b[0] { CompareFlips(a[1..], b[1..]); }
  }

  lemma {:induction false} CompareTransitive(a: seq<nat>, b: seq<nat>, c: seq<nat>)
    requires CompareKeys(a, b) <= 0 && CompareKeys(b, c) <= 0
    ensures CompareKeys(a, c) <= 0
    ensures CompareKeys(a, b) < 0 || CompareKeys(b, c) < 0 ==> CompareKeys(a, c) < 0
  {
    if a != [] && b != [] && c != [] && a[0] == b[0] == c[0] {
      CompareTransitive(a[1..], b[1..], c[1..]);
    }
  }

  /** On all strings: reflexive, sign-antisymmetric and transitive, with 0 exactly for equal components. */
  lemma TotalPreorder(a: string, b: string, c: string)
    ensures Compare(a, b) in {-1, 0, 1} && Compare(a, b) == -Compare(b, a)
    ensures Compare(a, b) == 0 <==> Key(a) == Key(b)
    ensures Compare(a, b) <= 0 && Compare(b, c) <= 0 ==> Compare(a, c) <= 0
    ensures Compare(a, b) <= 0 && Compare(b, c) <= 0 && Compare(a, c) == 0 ==> Compare(a, b) == 0 && Compare(b, c) == 0
  {
    CompareSign(Key(a), Key(b));
    CompareFlips(Key(a), Key(b));
    if Compare(a, b) <= 0 && Compare(b, c) <= 0 {
      CompareSign(Key(b), Key(c));
      CompareTransitive(Key(a), Key(b), Key(c));
    }
  }

  // ---- The numbers written in a release ----

  predicate AllDigits(s: string) {
    forall i | 0 <= i < |s| :: IsDigit(s[i])
  }

  predicate NoDigits(s: string) {
    forall i | 0 <= i < |s| :: !IsDigit(s[i])
  }

  /** Reading a written number gives it back. */
  lemma {:induction false} DecimalRoundTrip(n: nat)
    ensures Decimal(n) != "" && AllDigits(Decimal(n)) && DecimalValue(Decimal(n)) == n
  {
    if n >= 10 {
      DecimalRoundTrip(n / 10);
      var s := Decimal(n);
      assert s[..|s| - 1] == Decimal(n / 10);
    }
  }

  lemma {:induction false} WholeRun(digits: string, rest: string)
    requires AllDigits(digits) && (rest == "" || !IsDigit(rest[0]))
    ensures RunLength(digits + rest) == |digits|
  {
    if digits == "" {
      assert digits + rest == rest;
    } else {
      assert (digits + rest)[1..] == digits[1..] + rest;
      WholeRun(digits[1..], rest);
    }
  }

  lemma {:induction false} SkipsText(text: string, rest: string)
    requires NoDigits(text)
    ensures DigitRuns(text + rest) == DigitRuns(rest)
  {
    if text == "" {
      assert text + rest == rest;
    } else {
      assert (text + rest)[1..] == text[1..] + rest;
      SkipsText(text[1..], rest);
    }
  }

  /** A release as it is written: numbers, each followed by text without digits. */
  function Written(numbers: seq<nat>, texts: seq<string>): string
    requires |texts| == |numbers|
  {
    if numbers == [] then "" else Decimal(numbers[0]) + (texts[0] + Written(numbers[1..], texts[1..]))
  }

  /** The texts hold no digits and keep the numbers apart; nothing need follow the last. */
  predicate Separates(texts: seq<string>) {
    forall i | 0 <= i < |texts| :: NoDigits(texts[i]) && (i < |texts| - 1 ==> texts[i] != "")
  }

  function Decimals(numbers: seq<nat>): seq<string> {
    seq(|numbers|, i requires 0 <= i < |numbers| => Decimal(numbers[i]))
  }

  lemma {:induction false} RunsOfWritten(numbers: seq<nat>, texts: seq<string>)
    requires |texts| == |numbers| && Separates(texts)
    ensures DigitRuns(Written(numbers, texts)) == Decimals(numbers)
  {
    if numbers != [] {
      var d, rest := Decimal(numbers[0]), Written(numbers[1..], texts[1..]);
      assert Separates(texts[1..]) by {
        forall i | 0 <= i < |texts[1..]|
          ensures NoDigits(texts[1..][i]) && (i < |texts[1..]| - 1 ==> texts[1..][i] != "")
        {
          assert texts[1..][i] == texts[i + 1];
        }
      }
      RunsOfWritten(numbers[1..], texts[1..]);
      DecimalRoundTrip(numbers[0]);
      assert NoDigits(texts[0]);
      FirstRun(d, texts[0], rest);
      assert Decimals(numbers) == [d] + Decimals(numbers[1..]);
    }
  }

  lemma FirstRun(digits: string, text: string, rest: string)
    requires digits != "" && AllDigits(digits) && NoDigits(text) && (rest != "" ==> text != "")
    ensures DigitRuns(digits + (text + rest)) == [digits] + DigitRuns(rest)
  {
    var s := digits + (text + rest);
    WholeRun(digits, text + rest);
    assert s[..|digits|] == digits && s[|digits|..] == text + rest;
    SkipsText(text, rest);
  }

  predicate Fits(numbers: seq<nat>) {
    forall i | 0 <= i < |numbers| :: numbers[i] <= MAX_INT
  }

  /** The components of a release are the numbers written in it, whatever text is before, between and after them. */
  lemma KeyIsNumbers(pre: string, numbers: seq<nat>, texts: seq<string>)
    requires |texts| == |numbers| && Separates(texts) && NoDigits(pre)
    ensures |Key(pre + Written(numbers, texts))| == |numbers|
    ensures forall i | 0 <= i < |numbers| ::
      Key(pre + Written(numbers, texts))[i] == if numbers[i] > MAX_INT then MAX_INT else numbers[i]
    ensures Fits(numbers) ==> Key(pre + Written(numbers, texts)) == numbers
  {
    SkipsText(pre, Written(numbers, texts));
    RunsOfWritten(numbers, texts);
    forall i | 0 <= i < |numbers|
      ensures DecimalValue(Decimals(numbers)[i]) == numbers[i]
    {
      DecimalRoundTrip(numbers[i]);
    }
  }

  /**
   So releases are ordered by the numbers written in them, and the text never takes part: `a` is older exactly when it
   has the smaller number, or no more, at the first place where they differ.
   */
  lemma OrderedByNumbers(a: seq<nat>, textsA: seq<string>, b: seq<nat>, textsB: seq<string>)
    requires |textsA| == |a| && Separates(textsA) && Fits(a)
    requires |textsB| == |b| && Separates(textsB) && Fits(b)
    ensures Compare(Written(a, textsA), Written(b, textsB)) == 0 <==> a == b
    ensures Compare(Written(a, textsA), Written(b, textsB)) < 0 <==> exists i: nat :: OlderAt(a, b, i)
  {
    assert "" + Written(a, textsA) == Written(a, textsA) && "" + Written(b, textsB) == Written(b, textsB);
    KeyIsNumbers("", a, textsA);
    KeyIsNumbers("", b, textsB);
    ComparesFirstDifference(a, b);
  }

  /** Within a series the minor numbers decide, as numbers: 6.10 is newer than 6.9. */
  lemma MinorDecides(major: nat, a: nat, b: nat)
    requires major <= MAX_INT && a <= MAX_INT && b <= MAX_INT
    ensures Compare(Decimal(major) + "." + Decimal(a), Decimal(major) + "." + Decimal(b)) < 0 <==> a < b
  {
    WrittenPair(major, a);
    WrittenPair(major, b);
    OrderedByNumbers([major, a], [".", ""], [major, b], [".", ""]);
    SecondDecides(major, a, b);
  }

  lemma SecondDecides(major: nat, a: nat, b: nat)
    ensures (exists i: nat :: OlderAt([major, a], [major, b], i)) <==> a < b
  {
    assert [major, a][..1] == [major] == [major, b][..1];
    assert OlderAt([major, a], [major, b], 1) <==> a < b;
  }

  lemma WrittenPair(a: nat, b: nat)
    ensures Written([a, b], [".", ""]) == Decimal(a) + "." + Decimal(b)
  {
    assert [a, b][1..] == [b] && [".", ""][1..] == [""];
    assert Written([b], [""]) == Decimal(b) by { assert [b][1..] == [] && [""][1..] == []; }
  }

  // ---- Selecting from an inventory ----

  datatype Entry = Entry(release: string, target: string)

  type Inventory = map<string, seq<Entry>>

  datatype CrawlerRef = CrawlerRef(distro: string, target: string, releasePrefix: string, releaseContains: string,
    arch: string)

  predicate HasPrefix(s: string, prefix: string) {
    |prefix| <= |s| && s[..|prefix|] == prefix
  }

  predicate Contains(s: string, part: string) {
    exists i | 0 <= i <= |s| :: HasPrefix(s[i..], part)
  }

  predicate Matches(e: Entry, ref: CrawlerRef) {
    && (ref.target != "" ==> e.target == ref.target)
    && HasPrefix(e.release, ref.releasePrefix)
    && (ref.releaseContains != "" ==> Contains(e.release, ref.releaseContains))
  }

  function EntriesOf(inv: Inventory, ref: CrawlerRef): seq<Entry> {
    if ref.distro in inv then inv[ref.distro] else []
  }

  /** The newest matching release among the first entries; empty when there is none. */
  function NewestIn(entries: seq<Entry>, ref: CrawlerRef): string {
    if entries == [] then ""
    else
      var best := NewestIn(entries[..|entries| - 1], ref);
      var e := entries[|entries| - 1];
      if Matches(e, ref) && (best == "" || Compare(e.release, best) > 0) then e.release else best
  }

  function NewestOf(inv: Inventory, ref: CrawlerRef): string {
    NewestIn(EntriesOf(inv, ref), ref)
  }

  method Newest(inv: Inventory, ref: CrawlerRef) returns (best: string)
    ensures best == NewestOf(inv, ref)
  {
    var entries := EntriesOf(inv, ref);
    best := "";
    var i := 0;
    while i < |entries|
      invariant 0 <= i <= |entries|
      invariant best == NewestIn(entries[..i], ref)
    {
      assert entries[..i + 1][..i] == entries[..i];
      var e := entries[i];
      if Matches(e, ref) && (best == "" || Compare(e.release, best) > 0) {
        best := e.release;
      }
      i := i + 1;
    }
    assert entries[..i] == entries;
  }

  /** `s` reads `before`, then `part`, then `after`. */
  predicate Splits(s: string, before: string, part: string, after: string) {
    s == before + part + after
  }

  lemma PrefixExactly(s: string, prefix: string)
    ensures HasPrefix(s, prefix) <==> exists rest :: Splits(s, "", prefix, rest)
  {
    if HasPrefix(s, prefix) { assert Splits(s, "", prefix, s[|prefix|..]); }
    if rest :| Splits(s, "", prefix, rest) { assert s[..|prefix|] == prefix; }
  }

  lemma ContainsExactly(s: string, part: string)
    ensures Contains(s, part) <==> exists before, after :: Splits(s, before, part, after)
  {
    if Contains(s, part) {
      var i :| 0 <= i <= |s| && HasPrefix(s[i..], part);
      assert Splits(s, s[..i], part, s[i..][|part|..]);
    }
    if before, after :| Splits(s, before, part, after) {
      assert s[|before|..] == part + after;
      assert HasPrefix(s[|before|..], part);
    }
  }

  /** An entry matches exactly when its target is the one asked for, if any, and its release has the texts asked for. */
  lemma MatchesExactly(e: Entry, ref: CrawlerRef)
    ensures Matches(e, ref) <==>
      && (ref.target == "" || e.target == ref.target)
      && (exists rest :: Splits(e.release, "", ref.releasePrefix, rest))
      && (exists before, after :: Splits(e.release, before, ref.releaseContains, after))
  {
    PrefixExactly(e.release, ref.releasePrefix);
    ContainsExactly(e.release, ref.releaseContains);
    assert Splits(e.release, "", "", e.release);
  }

  lemma EmptyIsOldest(a: string)
    ensures Compare("", a) <= 0
  {
    assert Key("") == [];
  }

  /**
   The result is a maximum: a matching release no other matching release is newer than; empty exactly when only empty
   releases match.
   */
  lemma {:induction false} NewestIsMaximum(entries: seq<Entry>, ref: CrawlerRef)
    ensures var best := NewestIn(entries, ref);
      && (forall e | e in entries && Matches(e, ref) :: Compare(e.release, best) <= 0)
      && (best != "" ==> exists e :: e in entries && Matches(e, ref) && e.release == best)
      && (best == "" <==> forall e | e in entries && Matches(e, ref) :: e.release == "")
  {
    if entries != [] {
      var rest, last := entries[..|entries| - 1], entries[|entries| - 1];
      assert entries == rest + [last];
      NewestIsMaximum(rest, ref);
      var before, best := NewestIn(rest, ref), NewestIn(entries, ref);
      EmptyIsOldest(last.release);
      forall e | e in entries && Matches(e, ref)
        ensures Compare(e.release, best) <= 0
      {
        TotalPreorder(e.release, before, best);
        TotalPreorder(last.release, best, best);
        TotalPreorder(before, last.release, best);
      }
    }
  }

  /** The newest release is of the distribution asked for: none if that is unknown, else no match there is newer. */
  lemma NewestOfDistro(inv: Inventory, ref: CrawlerRef, e: Entry)
    ensures ref.distro !in inv ==> NewestOf(inv, ref) == ""
    ensures ref.distro in inv && e in inv[ref.distro] && Matches(e, ref) && e.release != "" ==>
      NewestOf(inv, ref) != "" && Compare(e.release, NewestOf(inv, ref)) <= 0
  {
    NewestIsMaximum(EntriesOf(inv, ref), ref);
  }

  /** `e` is the first matching entry with its release. */
  ghost predicate FirstOfRelease(entries: seq<Entry>, ref: CrawlerRef, e: Entry) {
    exists k :: 0 <= k < |entries| && entries[k] == e && Matches(e, ref)
      && forall j | 0 <= j < k :: Matches(entries[j], ref) ==> entries[j].release != e.release
  }

  ghost predicate DistinctReleases(s: seq<Entry>) {
    forall i, j | 0 <= i < j < |s| :: s[i].release != s[j].release
  }

  ghost predicate NewestFirst(s: seq<Entry>) {
    forall i, j | 0 <= i < j < |s| :: Compare(s[i].release, s[j].release) >= 0
  }

  /** The matching entries, one per release: the first with each. */
  method DistinctMatches(entries: seq<Entry>, ref: CrawlerRef) returns (matches: seq<Entry>)
    ensures DistinctReleases(matches)
    ensures forall e | e in matches :: FirstOfRelease(entries, ref, e)
    ensures forall e | e in entries && Matches(e, ref) :: exists x :: x in matches && x.release == e.release
  {
    var seen: set<string> := {};
    matches := [];
    var i := 0;
    while i < |entries|
      invariant 0 <= i <= |entries|
      invariant forall r: string :: r in seen <==> exists x :: x in matches && x.release == r
      invariant forall j | 0 <= j < i :: Matches(entries[j], ref) ==> entries[j].release in seen
      invariant DistinctReleases(matches)
      invariant forall e | e in matches :: FirstOfRelease(entries, ref, e)
    {
      var e := entries[i];
      if Matches(e, ref) && e.release !in seen {
        assert FirstOfRelease(entries, ref, e);
        seen := seen + {e.release};
        assert forall x :: x in matches + [e] <==> x in matches || x == e;
        matches := matches + [e];
      }
      i := i + 1;
    }
  }

  lemma ReleaseOrderIsLawful()
    ensures StrictWeakOrder((a: Entry, b: Entry) => Compare(a.release, b.release) > 0)
  {
    var lt := (a: Entry, b: Entry) => Compare(a.release, b.release) > 0;
    forall x, y, z ensures Lawful(lt, x, y, z) {
      TotalPreorder(x.release, x.release, x.release);
      TotalPreorder(x.release, y.release, z.release);
      TotalPreorder(z.release, y.release, x.release);
      TotalPreorder(y.release, z.release, z.release);
      TotalPreorder(z.release, x.release, x.release);
    }
  }

  lemma {:induction false} SortedDistinct(s: seq<Entry>, r: seq<Entry>)
    requires multiset(s) == multiset(r) && DistinctReleases(s)
    ensures DistinctReleases(r)
    ensures forall e :: e in r <==> e in s
  {
    DistinctPermutation(s, r);
    forall i, j | 0 <= i < j < |r|
      ensures r[i].release != r[j].release
    {
      assert r[i] in s && r[j] in s && r[i] != r[j];
    }
  }

  method SortByRelease(matches: seq<Entry>) returns (sorted: seq<Entry>)
    requires DistinctReleases(matches)
    ensures DistinctReleases(sorted) && NewestFirst(sorted)
    ensures forall e :: e in sorted <==> e in matches
  {
    ReleaseOrderIsLawful();
    sorted := SortUnstable(matches, (a: Entry, b: Entry) => Compare(a.release, b.release) > 0);
    SortedDistinct(matches, sorted);
    SortedIsNewestFirst(sorted);
  }

  /** Each matching release is included, or the sweep is full and nothing in it is older. */
  ghost predicate Covered(e: Entry, r: seq<Entry>, count: int) {
    || (exists x :: x in r && x.release == e.release)
    || (count > 0 && |r| == count && forall x | x in r :: Compare(x.release, e.release) >= 0)
  }

  /**
   The `count` newest distinct releases, newest first. Nothing left out is newer
   than anything included, and the first one is level with `Newest`.
   */
  method SweepEntries(inv: Inventory, ref: CrawlerRef, count: int) returns (r: seq<Entry>)
    ensures DistinctReleases(r) && NewestFirst(r)
    ensures forall e | e in r :: FirstOfRelease(EntriesOf(inv, ref), ref, e)
    ensures count > 0 ==> |r| <= count
    ensures forall e | e in EntriesOf(inv, ref) && Matches(e, ref) :: Covered(e, r, count)
    ensures r == [] <==> forall e | e in EntriesOf(inv, ref) :: !Matches(e, ref)
    ensures r != [] ==> Compare(r[0].release, NewestOf(inv, ref)) == 0
  {
    var entries := EntriesOf(inv, ref);
    var matches := DistinctMatches(entries, ref);
    var sorted := SortByRelease(matches);
    HeadIsNewest(entries, ref, sorted);
    r := if count > 0 && |sorted| > count then sorted[..count] else sorted;
    CutSweep(entries, ref, sorted, count, r);
  }

  lemma CutSweep(entries: seq<Entry>, ref: CrawlerRef, sorted: seq<Entry>, count: int, r: seq<Entry>)
    requires NewestFirst(sorted)
    requires forall e | e in sorted :: FirstOfRelease(entries, ref, e)
    requires forall e | e in entries && Matches(e, ref) :: exists x :: x in sorted && x.release == e.release
    requires r == if count > 0 && |sorted| > count then sorted[..count] else sorted
    ensures forall e | e in r :: FirstOfRelease(entries, ref, e)
    ensures forall e | e in entries && Matches(e, ref) :: Covered(e, r, count)
    ensures r == [] <==> forall e | e in entries :: !Matches(e, ref)
  {
    assert forall e | e in r :: e in sorted;
    forall e | e in entries && Matches(e, ref)
      ensures Covered(e, r, count) && r != []
    {
      var x :| x in sorted && x.release == e.release;
      var k :| 0 <= k < |sorted| && sorted[k] == x;
      if k < |r| { assert r[k] in r; }
    }
    if r != [] { assert FirstOfRelease(entries, ref, r[0]); }
  }

  lemma SortedIsNewestFirst(s: seq<Entry>)
    requires SortedBy(s, (a: Entry, b: Entry) => Compare(a.release, b.release) > 0)
    ensures NewestFirst(s)
  {
    forall i, j | 0 <= i < j < |s|
      ensures Compare(s[i].release, s[j].release) >= 0
    {
      TotalPreorder(s[i].release, s[j].release, s[j].release);
    }
  }

  lemma HeadIsNewest(entries: seq<Entry>, ref: CrawlerRef, sorted: seq<Entry>)
    requires NewestFirst(sorted)
    requires forall e | e in sorted :: FirstOfRelease(entries, ref, e)
    requires forall e | e in entries && Matches(e, ref) :: exists x :: x in sorted && x.release == e.release
    ensures sorted != [] ==> Compare(sorted[0].release, NewestIn(entries, ref)) == 0
  {
    if sorted != [] {
      var best, head := NewestIn(entries, ref), sorted[0].release;
      NewestIsMaximum(entries, ref);
      assert FirstOfRelease(entries, ref, sorted[0]);
      assert Compare(head, best) <= 0;
      TotalPreorder(head, best, best);
      if best == "" {
        EmptyIsOldest(head);
      } else {
        var e :| e in entries && Matches(e, ref) && e.release == best;
        var x :| x in sorted && x.release == e.release;
        TotalPreorder(head, head, head);
      }
    }
  }
}
