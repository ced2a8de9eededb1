/** The JavaScript string operations the queue relies on: `split` on one
    separator character, `trim`, the decimal rendering of an integer inside a
    template string, and `parseInt` with its default radix. */
module Text {
  import opened Wrappers

  /** The characters `String.prototype.trim` removes: white space and line terminators. */
  predicate IsSpace(c: char) {
    c in Blanks || '\U{2000}' <= c <= '\U{200A}'
  }

  const Blanks: set<char> := {
    '\t', '\n', '\U{000B}', '\U{000C}', '\r', ' ', '\U{00A0}', '\U{1680}',
    '\U{2028}', '\U{2029}', '\U{202F}', '\U{205F}', '\U{3000}', '\U{FEFF}'
  }

  /** A string that `trim` leaves as it is. */
  predicate Trimmed(s: string) {
    s == [] || (!IsSpace(s[0]) && !IsSpace(s[|s| - 1]))
  }

  function TrimStart(s: string): (r: string)
    ensures |r| <= |s| && forall c :: c in r ==> c in s
    ensures r == [] || !IsSpace(r[0])
  {
    if s != [] && IsSpace(s[0]) then TrimStart(s[1..]) else s
  }

  function TrimEnd(s: string): (r: string)
    ensures |r| <= |s| && forall c :: c in r ==> c in s
    ensures r == [] || r[0] == s[0]
    ensures r == [] || !IsSpace(r[|r| - 1])
  {
    if s != [] && IsSpace(s[|s| - 1]) then TrimEnd(s[..|s| - 1]) else s
  }

  /** `String.prototype.trim`: the result is trimmed and keeps only characters of the input. */
  function Trim(s: string): (r: string)
    ensures Trimmed(r)
    ensures forall c :: c in r ==> c in s
  {
    TrimEnd(TrimStart(s))
  }

  lemma TrimOfTrimmed(s: string)
    requires Trimmed(s)
    ensures Trim(s) == s
  {
  }

  /** Padding a trimmed field with blanks, as the record formats do, is undone by `trim`. */
  lemma TrimPadded(pre: string, s: string, post: string)
    requires forall i :: 0 <= i < |pre| ==> IsSpace(pre[i])
    requires forall i :: 0 <= i < |post| ==> IsSpace(post[i])
    requires Trimmed(s)
    ensures Trim(pre + s + post) == s
  {
    var t := pre + s + post;
    assert t == pre + (s + post);
    TrimStartSkips(pre, s + post);
    if s == [] {
      assert s + post == post;
      TrimStartAllSpace(post);
    } else {
      var u := s + post;
      assert u[0] == s[0];
      assert TrimStart(u) == u;
      TrimEndSkips(s, post);
    }
  }

  lemma {:induction false} TrimStartSkips(pre: string, s: string)
    requires forall i :: 0 <= i < |pre| ==> IsSpace(pre[i])
    ensures TrimStart(pre + s) == TrimStart(s)
  {
    if pre != [] {
      var t := pre + s;
      assert t[0] == pre[0] && IsSpace(t[0]);
      assert t[1..] == pre[1..] + s;
      assert TrimStart(t) == TrimStart(t[1..]);
      assert forall i :: 0 <= i < |pre[1..]| ==> pre[1..][i] == pre[i + 1];
      TrimStartSkips(pre[1..], s);
    } else {
      assert pre + s == s;
    }
  }

  lemma {:induction false} TrimStartAllSpace(s: string)
    requires forall i :: 0 <= i < |s| ==> IsSpace(s[i])
    ensures TrimStart(s) == [] && TrimEnd([]) == []
  {
    if s != [] {
      TrimStartAllSpace(s[1..]);
    }
  }

  lemma {:induction false} TrimEndSkips(s: string, post: string)
    requires s != [] && !IsSpace(s[|s| - 1])
    requires forall i :: 0 <= i < |post| ==> IsSpace(post[i])
    ensures TrimEnd(s + post) == s
  {
    if post == [] {
      assert s + post == s;
    } else {
      var t := s + post;
      assert t[|t| - 1] == post[|post| - 1];
      assert t[..|t| - 1] == s + post[..|post| - 1];
      assert TrimEnd(t) == TrimEnd(t[..|t| - 1]);
      TrimEndSkips(s, post[..|post| - 1]);
    }
  }

  // ---------------------------------------------------------------------------
  // split

  /** Position of the first occurrence of `c` in `s`. */
  function FirstIndex(s: string, c: char): (k: nat)
    requires c in s
    ensures k < |s| && s[k] == c && c !in s[..k]
  {
    if s[0] == c then 0
    else
      var k := FirstIndex(s[1..], c);
      assert s[..k + 1] == [s[0]] + s[1..][..k];
      k + 1
  }

  lemma FirstIndexIs(s: string, c: char, k: nat)
    requires k < |s| && s[k] == c && c !in s[..k]
    ensures FirstIndex(s, c) == k
  {
    var j := FirstIndex(s, c);
    assert forall i :: 0 <= i < k ==> s[..k][i] == s[i];
    assert forall i :: 0 <= i < j ==> s[..j][i] == s[i];
  }

  /** `s.split(sep)`: the pieces between the separators, at least one
      (`SplitSeparates`: none holds `sep`). */
  function Split(s: string, sep: char): (r: seq<string>)
    ensures |r| >= 1
    decreases |s|
  {
    if sep in s then
      var k := FirstIndex(s, sep);
      [s[..k]] + Split(s[k + 1..], sep)
    else
      [s]
  }

  /** No piece of a split holds the separator. */
  lemma {:induction false} SplitSeparates(s: string, sep: char)
    ensures forall i :: 0 <= i < |Split(s, sep)| ==> sep !in Split(s, sep)[i]
    decreases |s|
  {
    if sep in s {
      var k := FirstIndex(s, sep);
      SplitSeparates(s[k + 1..], sep);
      assert Split(s, sep) == [s[..k]] + Split(s[k + 1..], sep);
    }
  }

  /** The first piece of a split is everything before the first separator. */
  lemma SplitAtFirst(a: string, sep: char, b: string)
    requires sep !in a
    ensures Split(a + [sep] + b, sep) == [a] + Split(b, sep)
  {
    var s := a + [sep] + b;
    assert s[..|a|] == a;
    FirstIndexIs(s, sep, |a|);
    assert s[|a| + 1..] == b;
  }

  /** Splitting a joined string splits both halves. */
  lemma {:induction false} SplitAppend(a: string, sep: char, b: string)
    ensures Split(a + [sep] + b, sep) == Split(a, sep) + Split(b, sep)
    decreases |a|
  {
    if sep in a {
      var k := FirstIndex(a, sep);
      SplitPastFirst(a, sep, b, k);
      SplitAppend(a[k + 1..], sep, b);
      JoinPieces(Split(a + [sep] + b, sep), a[..k], Split(a[k + 1..], sep), Split(b, sep), Split(a, sep));
    } else {
      SplitAtFirst(a, sep, b);
    }
  }

  /** A separator inside `a` still ends the first piece after `b` is joined on. */
  lemma SplitPastFirst(a: string, sep: char, b: string, k: nat)
    requires sep in a && k == FirstIndex(a, sep)
    ensures Split(a + [sep] + b, sep) == [a[..k]] + Split(a[k + 1..] + [sep] + b, sep)
  {
    var s := a + [sep] + b;
    assert s[..k] == a[..k];
    FirstIndexIs(s, sep, k);
    assert s[k + 1..] == a[k + 1..] + [sep] + b;
  }

  /** Regrouping the pieces of a split. */
  lemma JoinPieces(whole: seq<string>, first: string, rest: seq<string>, tail: seq<string>, front: seq<string>)
    requires whole == [first] + (rest + tail) && front == [first] + rest
    ensures whole == front + tail
  {
  }

  /** A character absent from the input is absent from every piece. */
  lemma {:induction false} SplitAvoids(s: string, sep: char, c: char)
    requires c !in s
    ensures forall i :: 0 <= i < |Split(s, sep)| ==> c !in Split(s, sep)[i]
    decreases |s|
  {
    if sep in s {
      var k := FirstIndex(s, sep);
      assert c !in s[..k];
      assert c !in s[k + 1..];
      SplitAvoids(s[k + 1..], sep, c);
    }
  }

  lemma SplitWithout(s: string, sep: char)
    requires sep !in s
    ensures Split(s, sep) == [s]
  {
  }

  // ---------------------------------------------------------------------------
  // decimal numbers

  predicate IsDigit(c: char) {
    '0' <= c <= '9'
  }

  predicate AllDigits(s: string) {
    forall i :: 0 <= i < |s| ==> IsDigit(s[i])
  }

  function DigitChar(d: nat): (c: char)
    requires d < 10
    ensures IsDigit(c)
  {
    (d + '0' as int) as char
  }

  function DigitValue(c: char): (d: nat)
    requires IsDigit(c)
    ensures d < 10
  {
    c as int - '0' as int
  }

  /** The value of a string of decimal digits, most significant first. */
  function DigitsValue(s: string): nat
    requires AllDigits(s)
  {
    if s == [] then 0 else 10 * DigitsValue(s[..|s| - 1]) + DigitValue(s[|s| - 1])
  }

  /** The decimal rendering of a natural number, as a template string prints it. */
  function NatToString(n: nat): (r: string)
    ensures |r| >= 1 && AllDigits(r)
  {
    if n < 10 then [DigitChar(n)] else NatToString(n / 10) + [DigitChar(n % 10)]
  }

  /** The decimal rendering of an integer: a minus sign before negative values. */
  function IntToString(n: int): (r: string)
    ensures |r| >= 1 && (r[0] == '-' || IsDigit(r[0]))
    ensures forall i :: 1 <= i < |r| ==> IsDigit(r[i])
  {
    if n < 0 then "-" + NatToString(-n) else NatToString(n)
  }

  /** Reading back a decimal rendering gives the number. */
  lemma {:induction false} DigitsValueOfNatToString(n: nat)
    ensures DigitsValue(NatToString(n)) == n
  {
    if n >= 10 {
      var r := NatToString(n);
      assert r[..|r| - 1] == NatToString(n / 10);
      DigitsValueOfNatToString(n / 10);
    }
  }

  /** Different numbers print differently. */
  lemma NatToStringInjective(a: nat, b: nat)
    requires NatToString(a) == NatToString(b)
    ensures a == b
  {
    DigitsValueOfNatToString(a);
    DigitsValueOfNatToString(b);
  }

  /** Length of the longest prefix of `s` made of characters satisfying `ok`. */
  function PrefixLength(s: string, ok: char -> bool): (k: nat)
    ensures k <= |s| && forall i :: 0 <= i < k ==> ok(s[i])
    ensures k < |s| ==> !ok(s[k])
  {
    if s != [] && ok(s[0]) then 1 + PrefixLength(s[1..], ok) else 0
  }

  predicate IsHexDigit(c: char) {
    IsDigit(c) || 'a' <= c <= 'f' || 'A' <= c <= 'F'
  }

  function HexDigitValue(c: char): nat
    requires IsHexDigit(c)
  {
    if IsDigit(c) then DigitValue(c)
    else if 'a' <= c <= 'f' then c as int - 'a' as int + 10
    else c as int - 'A' as int + 10
  }

  function HexValue(s: string): nat
    requires forall i :: 0 <= i < |s| ==> IsHexDigit(s[i])
  {
    if s == [] then 0 else 16 * HexValue(s[..|s| - 1]) + HexDigitValue(s[|s| - 1])
  }

  /** The magnitude `parseInt` reads after the sign: a `0x`/`0X` prefix selects
      hexadecimal, otherwise the longest run of decimal digits; `None` when no
      digit follows. */
  function ParseMagnitude(u: string): Option<nat> {
    if |u| >= 2 && u[0] == '0' && (u[1] == 'x' || u[1] == 'X') then
      var h := u[2..];
      var k := PrefixLength(h, IsHexDigit);
      if k == 0 then None else Some(HexValue(h[..k]))
    else
      var k := PrefixLength(u, IsDigit);
      if k == 0 then None else Some(DigitsValue(u[..k]))
  }

  /** JavaScript's `parseInt(s)` with the default radix; `None` stands for `NaN`.
      Leading white space is skipped, one sign is accepted, and reading stops at
      the first character that is not a digit. */
  function ParseInt(s: string): (r: Option<int>)
    ensures TrimStart(s) == [] ==> r.None?
    ensures r.Some? && r.value < 0 ==> TrimStart(s)[0] == '-'
  {
    var u := TrimStart(s);
    var signed := u != [] && (u[0] == '-' || u[0] == '+');
    var body := if signed then u[1..] else u;
    match ParseMagnitude(body)
    case None => None
    case Some(m) =>
      var v: int := if signed && u[0] == '-' then -(m as int) else m;
      Some(v)
  }

  lemma NotSpace(c: char)
    requires IsDigit(c) || c == '-'
    ensures !IsSpace(c)
  {
  }

  lemma ParseMagnitudeOfDigits(s: string)
    requires |s| >= 1 && AllDigits(s)
    ensures ParseMagnitude(s) == Some(DigitsValue(s))
  {
    assert !(|s| >= 2 && s[1] == 'x') && !(|s| >= 2 && s[1] == 'X');
    var k := PrefixLength(s, IsDigit);
    assert k == |s|;
    assert s[..k] == s;
  }

  /** A string that starts with a digit or a minus sign has no leading white space. */
  lemma TrimStartOfSigned(r: string)
    requires |r| >= 1 && (IsDigit(r[0]) || r[0] == '-')
    ensures TrimStart(r) == r
  {
    NotSpace(r[0]);
  }

  lemma ParseIntOfNatToString(n: nat)
    ensures ParseInt(NatToString(n)) == Some(n)
  {
    var r := NatToString(n);
    TrimStartOfSigned(r);
    assert r[0] != '-' && r[0] != '+';
    ParseMagnitudeOfDigits(r);
    DigitsValueOfNatToString(n);
  }

  lemma ParseIntOfNegative(n: nat)
    requires n > 0
    ensures ParseInt("-" + NatToString(n)) == Some(-(n as int))
  {
    var d := NatToString(n);
    var r := "-" + d;
    TrimStartOfSigned(r);
    assert r[0] == '-' && r[1..] == d;
    ParseMagnitudeOfDigits(d);
    DigitsValueOfNatToString(n);
  }

  /** `parseInt` reads back what a template string printed for an integer. */
  lemma ParseIntOfIntToString(n: int)
    ensures ParseInt(IntToString(n)) == Some(n)
  {
    if n < 0 {
      ParseIntOfNegative(-n);
    } else {
      ParseIntOfNatToString(n);
    }
  }
}
