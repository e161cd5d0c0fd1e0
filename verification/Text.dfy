/**
 The string operations the rest of the model uses: trimming, case folding and
 byte-wise ordering, on ASCII text.
 */
module Text {

  /** White space removed at both ends of a string: tab, line feed, vertical tab, form feed, carriage return, space. */
  predicate IsSpace(c: char) {
    c == ' ' || 9 <= c as int <= 13
  }

  /** Neither end of `s` is white space. */
  predicate IsTrimmed(s: string) {
    s == "" || (!IsSpace(s[0]) && !IsSpace(s[|s| - 1]))
  }

  predicate AllSpace(s: string) {
    forall i | 0 <= i < |s| :: IsSpace(s[i])
  }

  function TrimLeft(s: string): string {
    if s != "" && IsSpace(s[0]) then TrimLeft(s[1..]) else s
  }

  function TrimRight(s: string): string {
    if s != "" && IsSpace(s[|s| - 1]) then TrimRight(s[..|s| - 1]) else s
  }

  lemma {:induction false} TrimLeftStrips(s: string)
    ensures var r := TrimLeft(s);
      (r == "" || !IsSpace(r[0])) && |r| <= |s| && r == s[|s| - |r|..] && AllSpace(s[..|s| - |r|])
  {
    if s != "" && IsSpace(s[0]) {
      TrimLeftStrips(s[1..]);
      var k := |s| - |TrimLeft(s)|;
      assert s[..k] == [s[0]] + s[1..][..k - 1];
    }
  }

  lemma {:induction false} TrimRightStrips(s: string)
    ensures var r := TrimRight(s);
      (r == "" || !IsSpace(r[|r| - 1])) && |r| <= |s| && r == s[..|r|] && AllSpace(s[|r|..])
  {
    if s != "" && IsSpace(s[|s| - 1]) {
      var n := |s| - 1;
      TrimRightStrips(s[..n]);
      var k := |TrimRight(s)|;
      assert s[k..] == s[..n][k..] + [s[n]];
    }
  }

  /** Strips white space at both ends. */
  function TrimSpace(s: string): (r: string)
    ensures IsTrimmed(r)
    ensures IsTrimmed(s) ==> r == s
  {
    TrimRightStrips(s);
    TrimLeftStrips(TrimRight(s));
    TrimLeft(TrimRight(s))
  }

  predicate Blank(s: string) {
    TrimSpace(s) == ""
  }

  function LowerChar(c: char): char {
    if 'A' <= c <= 'Z' then (c as int + 32) as char else c
  }

  function UpperChar(c: char): char {
    if 'a' <= c <= 'z' then (c as int - 32) as char else c
  }

  function ToLower(s: string): string {
    seq(|s|, i requires 0 <= i < |s| => LowerChar(s[i]))
  }

  function ToUpper(s: string): string {
    seq(|s|, i requires 0 <= i < |s| => UpperChar(s[i]))
  }

  /** Byte-wise order on strings. */
  predicate LexLess(a: string, b: string) {
    b != "" && (a == "" || a[0] < b[0] || (a[0] == b[0] && LexLess(a[1..], b[1..])))
  }

  lemma {:induction false} LexIrreflexive(a: string)
    ensures !LexLess(a, a)
  {
    if a != "" { LexIrreflexive(a[1..]); }
  }

  lemma {:induction false} LexTransitive(a: string, b: string, c: string)
    requires LexLess(a, b) && LexLess(b, c)
    ensures LexLess(a, c)
  {
    if a != "" && a[0] == b[0] == c[0] { LexTransitive(a[1..], b[1..], c[1..]); }
  }

  lemma {:induction false} LexTotal(a: string, b: string)
    ensures LexLess(a, b) || a == b || LexLess(b, a)
  {
    if a != "" && b != "" && a[0] == b[0] {
      LexTotal(a[1..], b[1..]);
      if a[1..] == b[1..] { assert a == [a[0]] + a[1..] && b == [b[0]] + b[1..]; }
    }
  }

  /** `LexLess` is a strict total order. */
  lemma LexOrder()
    ensures forall a: string :: !LexLess(a, a)
    ensures forall a: string, b: string, c: string :: LexLess(a, b) && LexLess(b, c) ==> LexLess(a, c)
    ensures forall a: string, b: string :: LexLess(a, b) || a == b || LexLess(b, a)
  {
    forall a: string { LexIrreflexive(a); }
    forall a: string, b: string, c: string | LexLess(a, b) && LexLess(b, c) { LexTransitive(a, b, c); }
    forall a: string, b: string { LexTotal(a, b); }
  }

  /** Padding a string does not change what trimming returns. */
  lemma {:induction false} TrimPadded(pre: string, s: string, post: string)
    requires AllSpace(pre) && AllSpace(post)
    ensures TrimSpace(pre + s + post) == TrimSpace(s)
  {
    TrimRightPadded(pre + s, post);
    TrimRightStrips(s);
    if TrimRight(s) == "" {
      TrimRightPadded(pre, s);
      TrimRightPadded("", pre);
      assert "" + pre == pre;
    } else {
      TrimRightPrefix(pre, s);
      TrimLeftPadded(pre, TrimRight(s));
    }
  }

  lemma {:induction false} TrimRightPadded(s: string, post: string)
    requires AllSpace(post)
    ensures TrimRight(s + post) == TrimRight(s)
  {
    if post == "" {
      assert s + post == s;
    } else {
      assert (s + post)[..|s + post| - 1] == s + post[..|post| - 1];
      TrimRightPadded(s, post[..|post| - 1]);
    }
  }

  lemma {:induction false} TrimRightPrefix(pre: string, s: string)
    requires TrimRight(s) != ""
    ensures TrimRight(pre + s) == pre + TrimRight(s)
  {
    if IsSpace(s[|s| - 1]) {
      assert (pre + s)[..|pre + s| - 1] == pre + s[..|s| - 1];
      TrimRightPrefix(pre, s[..|s| - 1]);
    }
  }

  lemma {:induction false} TrimLeftPadded(pre: string, s: string)
    requires AllSpace(pre)
    ensures TrimLeft(pre + s) == TrimLeft(s)
  {
    if pre == "" {
      assert pre + s == s;
    } else {
      assert (pre + s)[1..] == pre[1..] + s;
      TrimLeftPadded(pre[1..], s);
    }
  }

  /** Trimming the end keeps a beginning that ends in no white space. */
  lemma TrimKeepsStart(start: string, s: string)
    requires start != "" && !IsSpace(start[0]) && !IsSpace(start[|start| - 1])
    ensures start <= TrimSpace(start + s)
  {
    TrimRightStrips(s);
    if TrimRight(s) == "" { TrimRightPadded(start, s); } else { TrimRightPrefix(start, s); }
  }

  /** Trimming a case-folded string is case-folding the trimmed one. */
  lemma FoldKeepsTrimmed(s: string)
    requires IsTrimmed(s)
    ensures IsTrimmed(ToLower(s)) && IsTrimmed(ToUpper(s))
    ensures ToLower(ToLower(s)) == ToLower(s) && ToUpper(ToUpper(s)) == ToUpper(s)
  {
  }

  /** Folding maps the letters of one case to the other, letter by letter, and nothing else. */
  lemma FoldsLetters(c: char)
    ensures ToLower("ABCDEFGHIJKLMNOPQRSTUVWXYZ") == "abcdefghijklmnopqrstuvwxyz"
    ensures ToUpper("abcdefghijklmnopqrstuvwxyz") == "ABCDEFGHIJKLMNOPQRSTUVWXYZ"
    ensures c !in "ABCDEFGHIJKLMNOPQRSTUVWXYZ" ==> LowerChar(c) == c
    ensures c !in "abcdefghijklmnopqrstuvwxyz" ==> UpperChar(c) == c
  {
    assert forall i | 0 <= i < 26 :: "ABCDEFGHIJKLMNOPQRSTUVWXYZ"[i] == ('A' as int + i) as char;
    assert forall i | 0 <= i < 26 :: "abcdefghijklmnopqrstuvwxyz"[i] == ('a' as int + i) as char;
    assert 'A' <= c <= 'Z' ==> "ABCDEFGHIJKLMNOPQRSTUVWXYZ"[c as int - 'A' as int] == c;
    assert 'a' <= c <= 'z' ==> "abcdefghijklmnopqrstuvwxyz"[c as int - 'a' as int] == c;
  }

  /** The characters trimming removes. */
  lemma SpacesAre(c: char)
    ensures IsSpace(c) <==> c in "\t\n\U{0B}\U{0C}\r "
  {
    assert c == ' ' ==> "\t\n\U{0B}\U{0C}\r "[5] == c;
    assert 9 <= c as int <= 13 ==> "\t\n\U{0B}\U{0C}\r "[c as int - 9] == c;
  }

  datatype Option<+T> = None | Some(value: T)

  predicate IsAlnum(c: char) {
    'a' <= c <= 'z' || 'A' <= c <= 'Z' || '0' <= c <= '9'
  }

  /** Identifiers: 1 to 64 characters, letters, digits, `.`, `_`, `-`, starting with a letter or digit. */
  predicate IsIdentifier(s: string) {
    && 1 <= |s| <= 64
    && IsAlnum(s[0])
    && forall i | 0 <= i < |s| :: IsAlnum(s[i]) || s[i] in "._-"
  }

  /** The trimmed value, when it is an identifier. */
  function ValidateId(s: string): (r: Option<string>)
    ensures r.Some? ==> IsIdentifier(r.value) && IsTrimmed(r.value)
    ensures IsIdentifier(s) ==> r == Some(s)
  {
    var t := TrimSpace(s);
    assert IsIdentifier(s) ==> IsTrimmed(s);
    if IsIdentifier(t) then Some(t) else None
  }
}
