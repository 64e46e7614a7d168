/**
 * The JavaScript string operations the pipeline relies on: `trim`, the `\s`, `\d` and `\w`
 * classes of regular expressions, ASCII lower-casing, decimal digits, `join` and `split`.
 */
module Text {

  /** A JavaScript property that is either `undefined`/`null` or a string. */
  datatype Value = Undefined | Str(s: string)

  /** JavaScript truthiness of such a property: only a non-empty string is truthy. */
  predicate Truthy(v: Value) {
    v.Str? && v.s != ""
  }

  /** `v || fallback` */
  function OrElse(v: Value, fallback: string): (r: string)
    ensures Truthy(v) ==> r == v.s
    ensures !Truthy(v) ==> r == fallback
  {
    if Truthy(v) then v.s else fallback
  }

  /** String concatenation with a possibly undefined value, as JavaScript performs it. */
  function Interpolate(v: Value): (r: string)
    ensures v.Str? ==> r == v.s
    ensures v.Undefined? ==> r == "undefined"
  {
    if v.Str? then v.s else "undefined"
  }

  /**
   * ECMAScript WhiteSpace and LineTerminator code points: exactly what `String.prototype.trim`
   * strips and what `\s` matches.
   */
  predicate IsSpace(c: char) {
    c == '\t' || c == '\n' || c == '\U{000B}' || c == '\U{000C}' || c == '\r' || c == ' ' ||
    c == '\U{00A0}' || c == '\U{1680}' || ('\U{2000}' <= c <= '\U{200A}') ||
    c == '\U{2028}' || c == '\U{2029}' || c == '\U{202F}' || c == '\U{205F}' ||
    c == '\U{3000}' || c == '\U{FEFF}'
  }

  /** `\d`: ASCII decimal digits only. */
  predicate IsDigit(c: char) {
    '0' <= c <= '9'
  }

  /** `\w`: ASCII letters, digits and underscore. */
  predicate IsWordChar(c: char) {
    ('a' <= c <= 'z') || ('A' <= c <= 'Z') || IsDigit(c) || c == '_'
  }

  /** A string with no white space at either end. */
  predicate IsTrimmed(s: string) {
    s == [] || (!IsSpace(s[0]) && !IsSpace(s[|s| - 1]))
  }

  /** Drops the leading white space. */
  function TrimStart(s: string): (r: string)
    ensures |r| <= |s| && r == s[|s| - |r|..]
    ensures forall i :: 0 <= i < |s| - |r| ==> IsSpace(s[i])
    ensures r != [] ==> !IsSpace(r[0])
  {
    if s != [] && IsSpace(s[0]) then TrimStart(s[1..]) else s
  }

  /** Drops the trailing white space. */
  function TrimEnd(s: string): (r: string)
    ensures |r| <= |s| && r == s[..|r|]
    ensures forall i :: |r| <= i < |s| ==> IsSpace(s[i])
    ensures r != [] ==> !IsSpace(r[|r| - 1])
  {
    if s != [] && IsSpace(s[|s| - 1]) then TrimEnd(s[..|s| - 1]) else s
  }

  /** `String.prototype.trim`. */
  function Trim(s: string): (r: string)
    ensures IsTrimmed(r)
    ensures |r| <= |s|
  {
    var t := TrimStart(s);
    var r := TrimEnd(t);
    assert r != [] ==> r[0] == t[0];
    r
  }

  lemma {:induction false} TrimStartOfNoLeadingSpace(s: string)
    requires s == [] || !IsSpace(s[0])
    ensures TrimStart(s) == s
  {
  }

  /** A trimmed string is its own trim. */
  lemma TrimOfTrimmed(s: string)
    requires IsTrimmed(s)
    ensures Trim(s) == s
  {
    TrimStartOfNoLeadingSpace(s);
  }

  /** Trimming is idempotent. */
  lemma TrimIdempotent(s: string)
    ensures Trim(Trim(s)) == Trim(s)
  {
    TrimOfTrimmed(Trim(s));
  }

  /** Trimming only removes characters: the trim is a piece of the string. */
  lemma TrimInfix(s: string)
    ensures IsInfix(Trim(s), s)
    ensures forall c :: c in Trim(s) ==> c in s
  {
    var t := TrimStart(s);
    assert Trim(s) <= s[|s| - |t|..];
  }

  /** `r` is `s[lo..hi]`, and what lies outside that slice is white space. */
  predicate SpaceAround(s: string, lo: nat, hi: nat, r: string) {
    lo <= hi <= |s| && r == s[lo..hi]
    && (forall k :: 0 <= k < lo ==> IsSpace(s[k]))
    && (forall k :: hi <= k < |s| ==> IsSpace(s[k]))
  }

  /** Trimming drops only white space: the trim is the string without a blank run at each end. */
  lemma TrimDropsOnlySpace(s: string)
    ensures exists lo: nat, hi: nat :: SpaceAround(s, lo, hi, Trim(s))
  {
    var t := TrimStart(s);
    var e := TrimEnd(t);
    var lo := |s| - |t|;
    var hi := lo + |e|;
    assert t == s[lo..];
    assert e == t[..|e|];
    assert e == s[lo..hi];
    forall k | hi <= k < |s|
      ensures IsSpace(s[k])
    {
      assert s[k] == t[k - lo];
    }
    assert SpaceAround(s, lo, hi, Trim(s));
  }

  /** The trim of a string is empty exactly when the string is all white space. */
  lemma TrimEmptyIffBlank(s: string)
    ensures Trim(s) == [] <==> forall i :: 0 <= i < |s| ==> IsSpace(s[i])
  {
    var t := TrimStart(s);
    if Trim(s) == [] {
      assert t == [];
    } else {
      assert !IsSpace(t[0]);
      assert t[0] == s[|s| - |t|];
    }
  }

  /** No white space but single spaces, and no two white-space characters side by side. */
  predicate Collapsed(r: string) {
    && (forall i :: 0 <= i < |r| && IsSpace(r[i]) ==> r[i] == ' ')
    && (forall i :: 0 <= i < |r| - 1 ==> !(IsSpace(r[i]) && IsSpace(r[i + 1])))
  }

  /** A character in front of a collapsed string keeps it collapsed unless two spaces meet. */
  lemma ConsCollapsed(c: char, rest: string)
    requires Collapsed(rest)
    requires IsSpace(c) ==> c == ' ' && (rest == [] || !IsSpace(rest[0]))
    ensures Collapsed([c] + rest)
  {
    var r := [c] + rest;
    forall i | 1 <= i < |r|
      ensures r[i] == rest[i - 1]
    {
    }
  }

  /** `s.replace(/\s+/g, ' ')`: every maximal run of white space becomes one space. */
  function CollapseSpaces(s: string): (r: string)
    ensures r == [] <==> s == []
    decreases |s|
  {
    if s == [] then []
    else if IsSpace(s[0]) then [' '] + CollapseSpaces(TrimStart(s))
    else [s[0]] + CollapseSpaces(s[1..])
  }

  /** The result starts with white space exactly when the input does. */
  lemma CollapseSpacesFirst(s: string)
    ensures var r := CollapseSpaces(s); r != [] ==> (IsSpace(r[0]) <==> IsSpace(s[0]))
  {
  }

  /** The result ends with white space exactly when the input does. */
  lemma {:induction false} CollapseSpacesLast(s: string)
    ensures var r := CollapseSpaces(s); r != [] ==> (IsSpace(r[|r| - 1]) <==> IsSpace(s[|s| - 1]))
    decreases |s|
  {
    if s != [] {
      if IsSpace(s[0]) {
        var t := TrimStart(s);
        LastOfCons(' ', CollapseSpaces(t));
        if t != [] {
          assert |t| < |s| by {
            assert t[0] != s[0];
          }
          CollapseSpacesLast(t);
          assert t[|t| - 1] == s[|s| - 1];
        } else {
          assert IsSpace(s[|s| - 1]);
        }
      } else {
        LastOfCons(s[0], CollapseSpaces(s[1..]));
        if s[1..] != [] {
          CollapseSpacesLast(s[1..]);
          assert s[1..][|s| - 2] == s[|s| - 1];
        }
      }
    }
  }

  /** The last character of a string with one character in front. */
  lemma LastOfCons(c: char, rest: string)
    ensures var r := [c] + rest; r[|r| - 1] == if rest == [] then c else rest[|rest| - 1]
  {
  }

  /** Collapsing leaves only single spaces, never two white-space characters in a row. */
  lemma {:induction false} CollapseSpacesCollapsed(s: string)
    ensures Collapsed(CollapseSpaces(s))
    decreases |s|
  {
    if s != [] {
      if IsSpace(s[0]) {
        var t := TrimStart(s);
        assert t == TrimStart(s[1..]);
        CollapseSpacesCollapsed(t);
        CollapseSpacesFirst(t);
        ConsCollapsed(' ', CollapseSpaces(t));
      } else {
        CollapseSpacesCollapsed(s[1..]);
        ConsCollapsed(s[0], CollapseSpaces(s[1..]));
      }
    }
  }

  /** The characters of `s` that are not white space, in order. */
  function RemoveSpaces(s: string): (r: string)
    ensures |r| <= |s|
  {
    if s == [] then [] else (if IsSpace(s[0]) then [] else [s[0]]) + RemoveSpaces(s[1..])
  }

  lemma {:induction false} RemoveSpacesOfTrimStart(s: string)
    ensures RemoveSpaces(TrimStart(s)) == RemoveSpaces(s)
    decreases |s|
  {
    if s != [] && IsSpace(s[0]) {
      RemoveSpacesOfTrimStart(s[1..]);
    }
  }

  /** Collapsing white space keeps every other character, in order. */
  lemma {:induction false} CollapseKeepsText(s: string)
    ensures RemoveSpaces(CollapseSpaces(s)) == RemoveSpaces(s)
    decreases |s|
  {
    if s != [] {
      if IsSpace(s[0]) {
        var t := TrimStart(s);
        assert t == TrimStart(s[1..]);
        CollapseKeepsText(t);
        RemoveSpacesOfTrimStart(s);
        assert ([' '] + CollapseSpaces(t))[1..] == CollapseSpaces(t);
      } else {
        CollapseKeepsText(s[1..]);
        assert ([s[0]] + CollapseSpaces(s[1..]))[1..] == CollapseSpaces(s[1..]);
      }
    }
  }

  /** Length of the maximal run of characters satisfying `p` that starts at index `i`. */
  function Span(s: string, i: nat, p: char -> bool): (n: nat)
    requires i <= |s|
    ensures i + n <= |s|
    decreases |s| - i
  {
    if i < |s| && p(s[i]) then 1 + Span(s, i + 1, p) else 0
  }

  /** The span is a run of `p`-characters that the end or a non-`p` character stops. */
  lemma {:induction false} SpanIsRun(s: string, i: nat, p: char -> bool)
    requires i <= |s|
    ensures forall k :: i <= k < i + Span(s, i, p) ==> p(s[k])
    ensures i + Span(s, i, p) == |s| || !p(s[i + Span(s, i, p)])
    decreases |s| - i
  {
    if i < |s| && p(s[i]) {
      SpanIsRun(s, i + 1, p);
    }
  }

  /** A run of `p`-characters followed by a character that is not one is measured exactly. */
  lemma {:induction false} SpanOf(s: string, i: nat, p: char -> bool, n: nat)
    requires i + n <= |s|
    requires forall k :: i <= k < i + n ==> p(s[k])
    requires i + n == |s| || !p(s[i + n])
    ensures Span(s, i, p) == n
    decreases n
  {
    if n > 0 {
      SpanOf(s, i + 1, p, n - 1);
    }
  }

  /** A piece of `s` made of `p`-characters, followed by the end or a non-`p` character, is a span. */
  lemma SpanOfPiece(s: string, i: nat, piece: string, p: char -> bool)
    requires i + |piece| <= |s| && s[i..i + |piece|] == piece
    requires forall k :: 0 <= k < |piece| ==> p(piece[k])
    requires i + |piece| == |s| || !p(s[i + |piece|])
    ensures Span(s, i, p) == |piece|
  {
    forall k | i <= k < i + |piece| ensures p(s[k]) {
      assert s[k] == piece[k - i];
    }
    SpanOf(s, i, p, |piece|);
  }

  /** A slice of a piece found in `s` is found at the corresponding place in `s`. */
  lemma SliceOfPiece(s: string, i: nat, piece: string, lo: nat, hi: nat)
    requires i + |piece| <= |s| && s[i..i + |piece|] == piece && lo <= hi <= |piece|
    ensures s[i + lo..i + hi] == piece[lo..hi]
  {
    forall k | 0 <= k < hi - lo
      ensures s[i + lo..i + hi][k] == piece[lo..hi][k]
    {
      assert s[i..i + |piece|][lo + k] == s[i + lo + k];
    }
  }

  /** `'c'.repeat(n)` */
  function Repeat(c: char, n: nat): (r: string)
    ensures |r| == n
    ensures forall i :: 0 <= i < n ==> r[i] == c
  {
    if n == 0 then [] else Repeat(c, n - 1) + [c]
  }

  /** Number of occurrences of `c` in `s`. */
  function CountChar(s: string, c: char): (n: nat)
    ensures n <= |s|
    ensures n == 0 <==> c !in s
  {
    if s == [] then 0 else (if s[0] == c then 1 else 0) + CountChar(s[1..], c)
  }

  /** Occurrences in a concatenation add up. */
  lemma {:induction false} CountCharAppend(a: string, b: string, c: char)
    ensures CountChar(a + b, c) == CountChar(a, c) + CountChar(b, c)
  {
    if a != [] {
      CountCharAppend(a[1..], b, c);
      assert (a + b)[1..] == a[1..] + b;
    } else {
      assert a + b == b;
    }
  }

  /** Position of the first occurrence of `c` in `s`, if any. */
  function IndexOf(s: string, c: char): (r: int)
    ensures -1 <= r < |s|
    ensures r == -1 <==> c !in s
    ensures r >= 0 ==> s[r] == c && c !in s[..r]
  {
    if s == [] then -1
    else if s[0] == c then 0
    else
      var k := IndexOf(s[1..], c);
      if k == -1 then -1 else (assert s[..k + 1] == [s[0]] + s[1..][..k]; k + 1)
  }

  /** The first occurrence is the one with no earlier occurrence. */
  lemma IndexOfIs(s: string, c: char, i: nat)
    requires i < |s| && s[i] == c && c !in s[..i]
    ensures IndexOf(s, c) == i
  {
    assert c in s;
  }

  /** `String.prototype.includes` */
  predicate Contains(s: string, sub: string)
    decreases |s|
  {
    sub <= s || (s != [] && Contains(s[1..], sub))
  }

  /** `sub` occurs somewhere inside `s`. */
  ghost predicate IsInfix(sub: string, s: string) {
    exists i | 0 <= i <= |s| :: sub <= s[i..]
  }

  lemma {:induction false} ContainsIsInfix(s: string, sub: string)
    ensures Contains(s, sub) <==> IsInfix(sub, s)
    decreases |s|
  {
    if s != [] {
      ContainsIsInfix(s[1..], sub);
      assert s[0..] == s;
      if IsInfix(sub, s[1..]) {
        var i :| 0 <= i <= |s[1..]| && sub <= s[1..][i..];
        assert s[i + 1..] == s[1..][i..];
      }
      if IsInfix(sub, s) && !(sub <= s) {
        var i :| 0 <= i <= |s| && sub <= s[i..];
        assert i > 0;
        assert s[1..][i - 1..] == s[i..];
      }
    } else {
      assert Contains(s, sub) == (sub <= s);
      if IsInfix(sub, s) {
        var i :| 0 <= i <= |s| && sub <= s[i..];
        assert i == 0 && s[i..] == s;
      }
    }
  }

  /** Each of the last six parts of a seven-part concatenation occurs inside it. */
  lemma InfixOfParts(f0: string, f1: string, f2: string, f3: string, f4: string, f5: string, f6: string)
    ensures var b := f0 + f1 + f2 + f3 + f4 + f5 + f6;
      IsInfix(f1, b) && IsInfix(f2, b) && IsInfix(f3, b) && IsInfix(f4, b) && IsInfix(f5, b) && IsInfix(f6, b)
  {
    var b := f0 + f1 + f2 + f3 + f4 + f5 + f6;
    assert f1 <= b[|f0|..];
    assert f2 <= b[|f0 + f1|..];
    assert f3 <= b[|f0 + f1 + f2|..];
    assert f4 <= b[|f0 + f1 + f2 + f3|..];
    assert f5 <= b[|f0 + f1 + f2 + f3 + f4|..];
    assert f6 <= b[|f0 + f1 + f2 + f3 + f4 + f5|..];
  }

  /** Each part of a concatenation occurs inside it. */
  lemma InfixOfConcat(x: string, y: string, z: string)
    ensures IsInfix(y, x + y + z)
  {
    assert y <= (x + y + z)[|x|..];
  }

  /** Occurrence is transitive. */
  lemma InfixTransitive(a: string, b: string, c: string)
    requires IsInfix(a, b) && IsInfix(b, c)
    ensures IsInfix(a, c)
  {
    var i :| 0 <= i <= |b| && a <= b[i..];
    var j :| 0 <= j <= |c| && b <= c[j..];
    assert a <= c[j + i..];
  }

  /** ASCII lower-casing. */
  function LowerChar(c: char): char {
    if 'A' <= c <= 'Z' then (c as int - 'A' as int + 'a' as int) as char else c
  }

  /**
   * `String.prototype.toLowerCase`, restricted to ASCII letters; every other character is kept.
   */
  function ToLower(s: string): (r: string)
    ensures |r| == |s|
    ensures forall i :: 0 <= i < |s| ==> r[i] == LowerChar(s[i])
  {
    if s == [] then [] else [LowerChar(s[0])] + ToLower(s[1..])
  }

  /** The decimal digit character for `d`. */
  function DigitChar(d: nat): (c: char)
    requires d < 10
    ensures IsDigit(c)
  {
    ('0' as int + d) as char
  }

  /** The value of a decimal digit character. */
  function DigitValue(c: char): (d: nat)
    requires IsDigit(c)
    ensures d < 10
  {
    c as int - '0' as int
  }

  predicate AllDigits(s: string) {
    forall i :: 0 <= i < |s| ==> IsDigit(s[i])
  }

  /** The value of a string of decimal digits, as `parseInt` reads it. */
  function DecimalValue(ds: string): nat
    requires AllDigits(ds)
  {
    if ds == [] then 0 else 10 * DecimalValue(ds[..|ds| - 1]) + DigitValue(ds[|ds| - 1])
  }

  /** The decimal rendering of a natural number, as a template literal writes it. */
  function NatToString(n: nat): (s: string)
    ensures s != [] && AllDigits(s)
    ensures |s| > 1 ==> s[0] != '0'
  {
    if n < 10 then [DigitChar(n)] else NatToString(n / 10) + [DigitChar(n % 10)]
  }

  /** Reading back the rendering of a number gives the number. */
  lemma {:induction false} NatToStringRoundTrip(n: nat)
    ensures DecimalValue(NatToString(n)) == n
  {
    var s := NatToString(n);
    if n >= 10 {
      NatToStringRoundTrip(n / 10);
      assert s[..|s| - 1] == NatToString(n / 10);
    }
  }

  /** `parts.join(sep)` */
  function Join(parts: seq<string>, sep: string): (r: string)
    ensures parts == [] ==> r == []
    ensures |parts| == 1 ==> r == parts[0]
  {
    if parts == [] then []
    else if |parts| == 1 then parts[0]
    else parts[0] + sep + Join(parts[1..], sep)
  }

  /** Appending one part to a join appends the separator and that part. */
  lemma {:induction false} JoinSnoc(parts: seq<string>, sep: string, last: string)
    requires parts != []
    ensures Join(parts + [last], sep) == Join(parts, sep) + sep + last
  {
    if |parts| > 1 {
      JoinSnoc(parts[1..], sep, last);
      assert (parts + [last])[1..] == parts[1..] + [last];
    }
  }

  /** Every part of a join occurs inside it. */
  lemma {:induction false} JoinHasEveryPart(parts: seq<string>, sep: string, k: nat)
    requires k < |parts|
    ensures IsInfix(parts[k], Join(parts, sep))
  {
    if |parts| == 1 {
      InfixOfConcat([], parts[0], []);
      assert [] + parts[0] + [] == parts[0];
    } else if k == 0 {
      InfixOfConcat([], parts[0], sep + Join(parts[1..], sep));
      assert [] + parts[0] + (sep + Join(parts[1..], sep)) == Join(parts, sep);
    } else {
      JoinHasEveryPart(parts[1..], sep, k - 1);
      var rest := Join(parts[1..], sep);
      InfixOfConcat(parts[0] + sep, rest, []);
      assert parts[0] + sep + rest + [] == Join(parts, sep);
      InfixTransitive(parts[k], rest, Join(parts, sep));
    }
  }

  /** `s.split(d)` for a one-character separator. */
  function Split(s: string, d: char): (r: seq<string>)
    ensures |r| == CountChar(s, d) + 1
    ensures forall k :: 0 <= k < |r| ==> d !in r[k]
  {
    if s == [] then [[]]
    else
      var rest := Split(s[1..], d);
      if s[0] == d then [[]] + rest else [[s[0]] + rest[0]] + rest[1..]
  }

  /** Splitting and joining with the same separator gives back the string. */
  lemma {:induction false} SplitJoinRoundTrip(s: string, d: char)
    ensures Join(Split(s, d), [d]) == s
  {
    if s != [] {
      var rest := Split(s[1..], d);
      SplitJoinRoundTrip(s[1..], d);
      if s[0] == d {
        assert Split(s, d)[1..] == rest;
      } else {
        var r := Split(s, d);
        if |rest| == 1 {
          assert r == [[s[0]] + rest[0]];
        } else {
          assert r[1..] == rest[1..];
          assert Join(rest, [d]) == rest[0] + [d] + Join(rest[1..], [d]);
        }
      }
    }
  }
}
