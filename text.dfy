/**
 * The pieces of Rust's standard string handling that the puzzle solutions rely on:
 * `str::lines`, `str::split(char)`, `str::split_once(&str)`, `str::trim`,
 * `usize::from_str` (`parse::<usize>()`), `usize::to_string`, `char::to_digit(10)`
 * and `char::is_ascii_digit`. Strings are sequences of `char`; byte lengths and
 * UTF-8 boundaries are not modelled.
 */
module Text {
  import opened Wrappers

  // ---------------------------------------------------------------------------
  // Decimal digits and numbers

  predicate IsDigit(c: char) {
    '0' <= c <= '9'
  }

  predicate AllDigits(s: string) {
    forall i :: 0 <= i < |s| ==> IsDigit(s[i])
  }

  function DigitValue(c: char): (d: nat)
    requires IsDigit(c)
    ensures d < 10
  {
    (c as int - '0' as int) as nat
  }

  function DigitChar(d: nat): (c: char)
    requires d < 10
    ensures IsDigit(c) && DigitValue(c) == d
  {
    (d + '0' as int) as char
  }

  function Pow10(k: nat): (p: nat)
    ensures p >= 1
  {
    if k == 0 then 1 else 10 * Pow10(k - 1)
  }

  lemma {:induction false} Pow10Add(a: nat, b: nat)
    ensures Pow10(a + b) == Pow10(a) * Pow10(b)
  {
    if b > 0 {
      Pow10Add(a, b - 1);
      assert Pow10(a + b) == 10 * Pow10(a + b - 1);
    }
  }

  lemma {:induction false} Pow10Monotone(a: nat, b: nat)
    requires a <= b
    ensures Pow10(a) <= Pow10(b)
  {
    if a < b {
      Pow10Monotone(a, b - 1);
    }
  }

  /** The value of a string of decimal digits, most significant digit first. */
  function ValueOf(s: string): (v: nat)
    requires AllDigits(s)
  {
    if s == [] then 0 else ValueOf(s[..|s| - 1]) * 10 + DigitValue(s[|s| - 1])
  }

  lemma {:induction false} ValueOfBound(s: string)
    requires AllDigits(s)
    ensures ValueOf(s) < Pow10(|s|)
  {
    if s != [] {
      ValueOfBound(s[..|s| - 1]);
    }
  }

  lemma AllDigitsAppend(a: string, b: string)
    requires AllDigits(a) && AllDigits(b)
    ensures AllDigits(a + b)
  {
    forall i | 0 <= i < |a + b| ensures IsDigit((a + b)[i]) {
      if i < |a| { assert (a + b)[i] == a[i]; } else { assert (a + b)[i] == b[i - |a|]; }
    }
  }

  lemma ShiftArithmetic(x: int, p: int, y: int, d: int)
    ensures (x * p + y) * 10 + d == x * (p * 10) + (y * 10 + d)
  {
  }

  /** Concatenating digit strings shifts the left part by the length of the right part. */
  lemma {:induction false} ValueOfAppend(a: string, b: string)
    requires AllDigits(a) && AllDigits(b)
    ensures AllDigits(a + b)
    ensures ValueOf(a + b) == ValueOf(a) * Pow10(|b|) + ValueOf(b)
  {
    AllDigitsAppend(a, b);
    if b != [] {
      var b' := b[..|b| - 1];
      assert (a + b)[..|a + b| - 1] == a + b';
      assert (a + b)[|a + b| - 1] == b[|b| - 1];
      ValueOfAppend(a, b');
      var x, p, y, d := ValueOf(a), Pow10(|b'|), ValueOf(b'), DigitValue(b[|b| - 1]);
      assert ValueOf(a + b) == ValueOf(a + b') * 10 + d;
      assert ValueOf(b) == y * 10 + d;
      assert Pow10(|b|) == p * 10;
      ShiftArithmetic(x, p, y, d);
    } else {
      assert a + b == a;
    }
  }

  /** `usize::to_string`: decimal digits without leading zeros ("0" for zero). */
  function ToDecimal(n: nat): (s: string)
    ensures |s| >= 1 && AllDigits(s)
    ensures |s| > 1 ==> s[0] != '0'
  {
    if n < 10 then [DigitChar(n)] else ToDecimal(n / 10) + [DigitChar(n % 10)]
  }

  lemma {:induction false} ValueOfToDecimal(n: nat)
    ensures ValueOf(ToDecimal(n)) == n
  {
    if n >= 10 {
      ValueOfToDecimal(n / 10);
      var s := ToDecimal(n);
      assert s[..|s| - 1] == ToDecimal(n / 10);
    }
  }

  /** The decimal rendering of n is exactly as long as n needs: 10^(len-1) <= n < 10^len. */
  lemma {:induction false} ToDecimalLength(n: nat)
    ensures n < Pow10(|ToDecimal(n)|)
    ensures n >= 10 ==> Pow10(|ToDecimal(n)| - 1) <= n
  {
    if n >= 10 {
      ToDecimalLength(n / 10);
    }
  }

  /** A digit string with no leading zero is the rendering of its value. */
  lemma {:induction false} ToDecimalOfValue(s: string)
    requires |s| >= 1 && AllDigits(s) && (|s| > 1 ==> s[0] != '0')
    ensures ToDecimal(ValueOf(s)) == s
  {
    if |s| == 1 {
      assert ValueOf(s) == DigitValue(s[0]) by { assert s[..0] == []; }
    } else {
      var p := s[..|s| - 1];
      assert p[0] == s[0];
      ToDecimalOfValue(p);
      ValueOfBound(p);
      ToDecimalLength(ValueOf(p));
      if |p| > 1 {
        // p has no leading zero, so its value is at least 10^(|p|-1) >= 1
        assert |ToDecimal(ValueOf(p))| > 1;
        assert ValueOf(p) >= 10;
      } else {
        assert ValueOf(p) == DigitValue(p[0]) by { assert p[..0] == []; }
      }
      var v := ValueOf(s);
      assert v / 10 == ValueOf(p) && v % 10 == DigitValue(s[|s| - 1]);
      assert v >= 10;
    }
  }

  /**
   * `s.parse::<usize>()`: one optional leading '+', then at least one ASCII digit
   * and nothing else. Values beyond the machine word are not modelled.
   */
  function ParseNat(s: string): (r: Option<nat>)
    ensures r.Some? <==> exists k :: 0 <= k <= 1 && k < |s| && (k == 1 ==> s[0] == '+') && AllDigits(s[k..])
  {
    if s == [] then None
    else
      var digits := if s[0] == '+' then s[1..] else s;
      if digits != [] && AllDigits(digits) then
        var k := if s[0] == '+' then 1 else 0;
        assert s[k..] == digits;
        Some(ValueOf(digits))
      else
        assert forall k :: 0 <= k <= 1 && k < |s| && (k == 1 ==> s[0] == '+') ==> !AllDigits(s[k..]) by {
          forall k | 0 <= k <= 1 && k < |s| && (k == 1 ==> s[0] == '+')
            ensures !AllDigits(s[k..])
          {
            if k == 0 && s[0] != '+' { assert s[k..] == digits; }
            else if k == 0 { assert !IsDigit(s[k..][0]); }
            else { assert s[k..] == digits; }
          }
        }
        None
  }

  /** Rendering a number and parsing it back gives the number. */
  lemma ParseToDecimal(n: nat)
    ensures ParseNat(ToDecimal(n)) == Some(n)
  {
    ValueOfToDecimal(n);
  }

  // ---------------------------------------------------------------------------
  // Splitting

  /** The index of the first occurrence of c in s, or |s| when there is none. */
  function FirstIndexOf(s: string, c: char): (i: nat)
    ensures i <= |s|
    ensures i < |s| ==> s[i] == c
    ensures forall j :: 0 <= j < i ==> s[j] != c
  {
    if s == [] || s[0] == c then 0 else 1 + FirstIndexOf(s[1..], c)
  }

  /** `s.split(c)` with a character pattern: every piece, empty ones included. */
  function Split(s: string, c: char): (pieces: seq<string>)
    ensures |pieces| >= 1
    ensures forall i :: 0 <= i < |pieces| ==> c !in pieces[i]
    decreases |s|
  {
    var i := FirstIndexOf(s, c);
    if i == |s| then [s] else [s[..i]] + Split(s[i + 1..], c)
  }

  /** The inverse of `Split`: the pieces separated by c. */
  function Join(pieces: seq<string>, c: char): string
  {
    if |pieces| <= 1 then (if pieces == [] then "" else pieces[0])
    else pieces[0] + [c] + Join(pieces[1..], c)
  }

  lemma {:induction false} JoinSplit(s: string, c: char)
    ensures Join(Split(s, c), c) == s
    decreases |s|
  {
    var i := FirstIndexOf(s, c);
    if i < |s| {
      JoinSplit(s[i + 1..], c);
      assert s == s[..i] + [c] + s[i + 1..];
    }
  }

  lemma {:induction false} SplitJoin(pieces: seq<string>, c: char)
    requires |pieces| >= 1
    requires forall i :: 0 <= i < |pieces| ==> c !in pieces[i]
    ensures Split(Join(pieces, c), c) == pieces
  {
    if |pieces| > 1 {
      var head, tail := pieces[0], pieces[1..];
      var rest := Join(tail, c);
      var s := head + [c] + rest;
      assert Join(pieces, c) == s;
      FirstIndexOfPrefix(head, c, rest);
      assert s[..|head|] == head;
      assert s[|head| + 1..] == rest;
      assert Split(s, c) == [head] + Split(rest, c);
      assert forall i :: 0 <= i < |tail| ==> c !in tail[i] by {
        forall i | 0 <= i < |tail| ensures c !in tail[i] {
          assert tail[i] == pieces[i + 1];
        }
      }
      SplitJoin(tail, c);
      assert pieces == [head] + tail;
    } else {
      var s := pieces[0];
      assert FirstIndexOf(s, c) == |s| by { FirstIndexAbsent(s, c); }
    }
  }

  lemma FirstIndexAbsent(s: string, c: char)
    requires c !in s
    ensures FirstIndexOf(s, c) == |s|
  {
  }

  lemma {:induction false} FirstIndexOfPrefix(a: string, c: char, b: string)
    requires c !in a
    ensures FirstIndexOf(a + [c] + b, c) == |a|
  {
    if a != [] {
      assert (a + [c] + b)[1..] == a[1..] + [c] + b;
      FirstIndexOfPrefix(a[1..], c, b);
    }
  }

  predicate OccursAt(s: string, sep: string, i: nat) {
    i + |sep| <= |s| && s[i..i + |sep|] == sep
  }

  /** The index of the first occurrence of sep in s, or None. */
  function Find(s: string, sep: string, from: nat): (r: Option<nat>)
    requires from <= |s|
    ensures r.Some? ==> from <= r.value && OccursAt(s, sep, r.value)
    ensures forall j :: from <= j && (r.Some? ==> j < r.value) ==> !OccursAt(s, sep, j)
    decreases |s| - from
  {
    if from + |sep| > |s| then None
    else if s[from..from + |sep|] == sep then Some(from)
    else Find(s, sep, from + 1)
  }

  /** `s.split_once(sep)`: the text around the first occurrence of sep. */
  function SplitOnce(s: string, sep: string): (r: Option<(string, string)>)
    ensures r.Some? ==> s == r.value.0 + sep + r.value.1
    ensures r.Some? ==> forall j :: 0 <= j < |r.value.0| ==> !OccursAt(s, sep, j)
    ensures r.None? ==> forall j :: 0 <= j ==> !OccursAt(s, sep, j)
  {
    match Find(s, sep, 0)
    case None => None
    case Some(i) =>
      assert s == s[..i] + s[i..i + |sep|] + s[i + |sep|..];
      Some((s[..i], s[i + |sep|..]))
  }

  /** With no occurrence of c, splitting once at c finds nothing. */
  lemma SplitOnceAbsent(s: string, c: char)
    requires SplitOnce(s, [c]).None?
    ensures c !in s
  {
    forall j | 0 <= j < |s| ensures s[j] != c {
      assert !OccursAt(s, [c], j);
      assert s[j..j + 1] == [s[j]];
    }
  }

  /** Splitting once at a one-character separator cuts at its first occurrence. */
  lemma SplitOnceFirst(s: string, c: char)
    requires SplitOnce(s, [c]).Some?
    ensures FirstIndexOf(s, c) < |s|
    ensures SplitOnce(s, [c]).value == (s[..FirstIndexOf(s, c)], s[FirstIndexOf(s, c) + 1..])
  {
    var (left, right) := SplitOnce(s, [c]).value;
    assert c !in left by {
      forall j | 0 <= j < |left| ensures left[j] != c {
        assert !OccursAt(s, [c], j);
        assert s[j..j + 1] == [left[j]];
      }
    }
    assert s == left + [c] + right;
    FirstIndexOfPrefix(left, c, right);
    assert s[..|left|] == left && s[|left| + 1..] == right;
  }

  /**
   * Splitting once at a one-character separator cuts at its first
   * occurrence, and finds nothing exactly when the character is absent.
   */
  lemma SplitOnceAtFirst(s: string, c: char)
    ensures SplitOnce(s, [c]).None? <==> c !in s
    ensures SplitOnce(s, [c]).None? ==> FirstIndexOf(s, c) == |s|
    ensures SplitOnce(s, [c]).Some? ==>
      && FirstIndexOf(s, c) < |s|
      && SplitOnce(s, [c]).value == (s[..FirstIndexOf(s, c)], s[FirstIndexOf(s, c) + 1..])
  {
    if SplitOnce(s, [c]).None? {
      SplitOnceAbsent(s, c);
      FirstIndexAbsent(s, c);
    } else {
      SplitOnceFirst(s, c);
    }
  }

  /** A line as `lines()` yields it: a trailing '\r' before the '\n' is dropped. */
  function StripCR(line: string): string {
    if line != [] && line[|line| - 1] == '\r' then line[..|line| - 1] else line
  }

  /**
   * `s.lines()`: the pieces between '\n' terminators; the final terminator is
   * optional, so text ending in '\n' has no empty last line, and empty text has
   * no lines at all. A '\r' is removed only where it stands before a '\n'.
   */
  function Lines(s: string): (ls: seq<string>)
    ensures forall i :: 0 <= i < |ls| ==> '\n' !in ls[i]
    decreases |s|
  {
    if s == [] then []
    else
      var i := FirstIndexOf(s, '\n');
      if i == |s| then [s] else [StripCR(s[..i])] + Lines(s[i + 1..])
  }

  /** Lines written out with '\n' between them and no terminator after the last. */
  function JoinLines(ls: seq<string>): string {
    Join(ls, '\n')
  }

  /** `lines()` gives back the lines of a text built from them. */
  lemma {:induction false} LinesJoinLines(ls: seq<string>)
    requires forall i :: 0 <= i < |ls| ==> '\n' !in ls[i]
    requires forall i :: 0 <= i < |ls| - 1 ==> ls[i] == [] || ls[i][|ls[i]| - 1] != '\r'
    requires ls != [] ==> ls[|ls| - 1] != []
    ensures Lines(JoinLines(ls)) == ls
  {
    if |ls| == 1 {
      FirstIndexAbsent(ls[0], '\n');
    } else if |ls| > 1 {
      var s := JoinLines(ls);
      var rest := JoinLines(ls[1..]);
      assert s == ls[0] + ['\n'] + rest;
      FirstIndexOfPrefix(ls[0], '\n', rest);
      assert s[..|ls[0]|] == ls[0];
      assert s[|ls[0]| + 1..] == rest;
      LinesJoinLines(ls[1..]);
    }
  }

  // ---------------------------------------------------------------------------
  // Trimming

  /** Unicode White_Space, the set `str::trim` removes. */
  predicate IsWhitespace(c: char) {
    var u := c as int;
    (0x9 <= u <= 0xD) || u == 0x20 || u == 0x85 || u == 0xA0 || u == 0x1680
    || (0x2000 <= u <= 0x200A) || u == 0x2028 || u == 0x2029 || u == 0x202F
    || u == 0x205F || u == 0x3000
  }

  function TrimStart(s: string): (r: string)
    ensures |r| <= |s| && r == s[|s| - |r|..]
    ensures r != [] ==> !IsWhitespace(r[0])
    ensures forall i :: 0 <= i < |s| - |r| ==> IsWhitespace(s[i])
  {
    if s != [] && IsWhitespace(s[0]) then TrimStart(s[1..]) else s
  }

  function TrimEnd(s: string): (r: string)
    ensures |r| <= |s| && r == s[..|r|]
    ensures r != [] ==> !IsWhitespace(r[|r| - 1])
    ensures forall i :: |r| <= i < |s| ==> IsWhitespace(s[i])
  {
    if s != [] && IsWhitespace(s[|s| - 1]) then TrimEnd(s[..|s| - 1]) else s
  }

  /** `s.trim()`: s without its leading and trailing white space. */
  function Trim(s: string): (r: string)
    ensures exists i, j :: Window(s, r, i, j)
    ensures r != [] ==> !IsWhitespace(r[0])
    ensures r != [] ==> !IsWhitespace(r[|r| - 1])
  {
    var r := TrimEnd(TrimStart(s));
    TrimWindow(s, r);
    r
  }

  /** Trimming keeps a window of the string with only white space outside it. */
  lemma TrimWindow(s: string, r: string)
    requires r == TrimEnd(TrimStart(s))
    ensures exists i, j :: Window(s, r, i, j)
    ensures r != [] ==> !IsWhitespace(r[0])
    ensures r != [] ==> !IsWhitespace(r[|r| - 1])
  {
    var t := TrimStart(s);
    var i := |s| - |t|;
    assert Window(s, r, i, i + |r|) by {
      WindowOf(s, t, r, i);
    }
    assert r != [] ==> r[0] == t[0] by {
      assert |r| <= |t| && r == t[..|r|];
    }
  }

  /** `r` is `s[i..j]` and `s` holds only white space outside that window. */
  predicate Window(s: string, r: string, i: nat, j: nat) {
    0 <= i <= j <= |s| && r == s[i..j]
    && (forall k :: 0 <= k < i ==> IsWhitespace(s[k]))
    && (forall k :: j <= k < |s| ==> IsWhitespace(s[k]))
  }

  lemma WindowOf(s: string, t: string, r: string, i: nat)
    requires i + |t| == |s| && t == s[i..] && |r| <= |t| && r == t[..|r|]
    requires forall k :: 0 <= k < i ==> IsWhitespace(s[k])
    requires forall k :: |r| <= k < |t| ==> IsWhitespace(t[k])
    ensures Window(s, r, i, i + |r|)
  {
    forall k | i + |r| <= k < |s|
      ensures IsWhitespace(s[k])
    {
      assert s[k] == t[k - i];
    }
  }

  predicate AllWhitespace(s: string) {
    forall k :: 0 <= k < |s| ==> IsWhitespace(s[k])
  }

  lemma {:induction false} TrimStartPadded(w: string, s: string)
    requires AllWhitespace(w)
    requires s != [] ==> !IsWhitespace(s[0])
    ensures TrimStart(w + s) == s
  {
    if w != [] {
      assert (w + s)[1..] == w[1..] + s;
      TrimStartPadded(w[1..], s);
    } else {
      assert w + s == s;
    }
  }

  lemma {:induction false} TrimEndPadded(s: string, w: string)
    requires AllWhitespace(w)
    requires s != [] ==> !IsWhitespace(s[|s| - 1])
    ensures TrimEnd(s + w) == s
  {
    if w != [] {
      var shorter := w[..|w| - 1];
      assert (s + w)[..|s + w| - 1] == s + shorter;
      TrimEndPadded(s, shorter);
    } else {
      assert s + w == s;
    }
  }

  /** Trimming removes exactly the white space around a word. */
  lemma TrimPadded(before: string, s: string, after: string)
    requires AllWhitespace(before) && AllWhitespace(after)
    requires s != [] && !IsWhitespace(s[0]) && !IsWhitespace(s[|s| - 1])
    ensures Trim(before + s + after) == s
  {
    assert before + s + after == before + (s + after);
    TrimStartPadded(before, s + after);
    TrimEndPadded(s, after);
  }
}
