/** The JavaScript string primitives the two pages rely on, stated over
    `string` (a sequence of `char`): `split` and `join` on one separator
    character, `indexOf` on an array of strings, array indexing that yields
    `undefined`, `trim`, ASCII `toLowerCase`, `includes`, the replacement
    `replace(/\s+/g, '_')`, the relational operator `<` on strings, and the
    decimal subset of `parseInt`, `parseFloat` and number-to-string. */
module JsString {
  import opened Wrappers

  // ---------------------------------------------------------------------
  // Whitespace, trim

  /** The characters matched by `\s` and removed by `trim()`: the WhiteSpace
      and LineTerminator code points of ECMA-262. */
  predicate IsSpace(c: char) {
    || c == ' ' || c == '\t' || c == '\n' || c == '\r'
    || c == '\U{000B}' || c == '\U{000C}' || c == '\U{00A0}' || c == '\U{1680}'
    || ('\U{2000}' <= c <= '\U{200A}')
    || c == '\U{2028}' || c == '\U{2029}' || c == '\U{202F}' || c == '\U{205F}'
    || c == '\U{3000}' || c == '\U{FEFF}'
  }

  /** Every character of `s` is whitespace. */
  predicate IsBlank(s: string) {
    forall i :: 0 <= i < |s| ==> IsSpace(s[i])
  }

  /** `trimStart()`: `s` without its leading whitespace. */
  function TrimStart(s: string): (r: string)
    ensures |r| <= |s| && r == s[|s| - |r|..]
    ensures r == [] || !IsSpace(r[0])
    ensures forall i :: 0 <= i < |s| - |r| ==> IsSpace(s[i])
    decreases |s|
  {
    if s != [] && IsSpace(s[0]) then TrimStart(s[1..]) else s
  }

  /** `trimEnd()`: `s` without its trailing whitespace. */
  function TrimEnd(s: string): (r: string)
    ensures |r| <= |s| && r == s[..|r|]
    ensures r == [] || !IsSpace(r[|r| - 1])
    ensures forall i :: |r| <= i < |s| ==> IsSpace(s[i])
    decreases |s|
  {
    if s != [] && IsSpace(s[|s| - 1]) then TrimEnd(s[..|s| - 1]) else s
  }

  /** `trim()`. */
  function Trim(s: string): string {
    TrimEnd(TrimStart(s))
  }

  /** `!line.trim()` holds exactly of the all-whitespace lines. */
  lemma TrimEmptyIffBlank(s: string)
    ensures Trim(s) == [] <==> IsBlank(s)
  {
    var t := TrimStart(s);
    TrimEndOfTrimmed(t);
    if Trim(s) != [] {
      var r := Trim(s);
      assert r[0] == t[0] == s[|s| - |t|];
      assert !IsSpace(s[|s| - |t|]);
    }
  }

  /** Trimming the end of a string without leading whitespace leaves
      nothing only when the string is empty. */
  lemma TrimEndOfTrimmed(t: string)
    requires t == [] || !IsSpace(t[0])
    ensures TrimEnd(t) == [] ==> t == []
  {
  }

  // ---------------------------------------------------------------------
  // split and join on one separator character

  /** `s.split(sep)` for a one-character separator: the pieces between the
      separators, always at least one (`"".split(",")` is `[""]`). */
  function Split(s: string, sep: char): (parts: seq<string>)
    ensures |parts| >= 1
    decreases |s|
  {
    if s == [] then [""]
    else
      var rest := Split(s[1..], sep);
      if s[0] == sep then [""] + rest else [[s[0]] + rest[0]] + rest[1..]
  }

  /** `parts.join(sep)`. */
  function Join(parts: seq<string>, sep: char): string
    requires |parts| >= 1
    decreases |parts|
  {
    if |parts| == 1 then parts[0] else parts[0] + [sep] + Join(parts[1..], sep)
  }

  /** No piece of a split contains the separator, and every character of a
      piece comes from the split string. */
  lemma {:induction false} SplitPieces(s: string, sep: char)
    ensures forall k :: 0 <= k < |Split(s, sep)| ==> sep !in Split(s, sep)[k]
    ensures forall k, c :: 0 <= k < |Split(s, sep)| && c in Split(s, sep)[k] ==> c in s
    decreases |s|
  {
    if s != [] {
      SplitPieces(s[1..], sep);
      var rest := Split(s[1..], sep);
      assert forall c :: c in s[1..] ==> c in s;
      if s[0] != sep {
        var parts := Split(s, sep);
        assert parts[0] == [s[0]] + rest[0];
        assert forall k :: 1 <= k < |parts| ==> parts[k] == rest[k];
      }
    }
  }

  /** Joining the pieces of a split gives back the string. */
  lemma {:induction false} JoinSplit(s: string, sep: char)
    ensures Join(Split(s, sep), sep) == s
    decreases |s|
  {
    if s != [] {
      JoinSplit(s[1..], sep);
      var rest := Split(s[1..], sep);
      if s[0] == sep {
        assert ([""] + rest)[1..] == rest;
      } else if |rest| > 1 {
        var parts := Split(s, sep);
        assert parts[1..] == rest[1..];
        assert Join(rest, sep) == rest[0] + [sep] + Join(rest[1..], sep);
      }
    }
  }

  /** A string without the separator splits into itself. */
  lemma {:induction false} SplitWithoutSeparator(s: string, sep: char)
    requires sep !in s
    ensures Split(s, sep) == [s]
    decreases |s|
  {
    if s != [] {
      assert sep !in s[1..];
      SplitWithoutSeparator(s[1..], sep);
      assert [s[0]] + s[1..] == s;
    }
  }

  /** Splitting `a + sep + b` cuts at that separator when `a` holds none. */
  lemma {:induction false} SplitAtFirstSeparator(a: string, sep: char, b: string)
    requires sep !in a
    ensures Split(a + [sep] + b, sep) == [a] + Split(b, sep)
    decreases |a|
  {
    if a == [] {
      assert a + [sep] + b == [sep] + b;
      assert ([sep] + b)[1..] == b;
    } else {
      assert sep !in a[1..];
      SplitAtFirstSeparator(a[1..], sep, b);
      assert (a + [sep] + b)[1..] == a[1..] + [sep] + b;
      assert [a[0]] + a[1..] == a;
    }
  }

  /** Splitting a join gives back the pieces when none contains the separator. */
  lemma {:induction false} SplitJoin(parts: seq<string>, sep: char)
    requires |parts| >= 1
    requires forall k :: 0 <= k < |parts| ==> sep !in parts[k]
    ensures Split(Join(parts, sep), sep) == parts
    decreases |parts|
  {
    if |parts| == 1 {
      SplitWithoutSeparator(parts[0], sep);
    } else {
      SplitJoin(parts[1..], sep);
      SplitAtFirstSeparator(parts[0], sep, Join(parts[1..], sep));
      assert [parts[0]] + parts[1..] == parts;
    }
  }

  /** A join avoids every character that neither the pieces nor the separator hold. */
  lemma {:induction false} JoinAvoids(parts: seq<string>, sep: char, c: char)
    requires |parts| >= 1 && c != sep
    requires forall k :: 0 <= k < |parts| ==> c !in parts[k]
    ensures c !in Join(parts, sep)
    decreases |parts|
  {
    if |parts| > 1 {
      JoinAvoids(parts[1..], sep, c);
    }
  }

  /** Appending to a join appends to its last piece. */
  lemma {:induction false} JoinAppendToLast(parts: seq<string>, sep: char, suffix: string)
    requires |parts| >= 1
    ensures Join(parts, sep) + suffix == Join(parts[..|parts| - 1] + [parts[|parts| - 1] + suffix], sep)
    decreases |parts|
  {
    if |parts| > 1 {
      JoinAppendToLast(parts[1..], sep, suffix);
      var ps := parts[..|parts| - 1] + [parts[|parts| - 1] + suffix];
      assert ps[1..] == parts[1..][..|parts| - 2] + [parts[|parts| - 1] + suffix];
    }
  }

  // ---------------------------------------------------------------------
  // Array lookups

  /** `xs.indexOf(x)`: the first position of `x`, or -1. */
  function IndexOf(xs: seq<string>, x: string): (r: int)
    ensures -1 <= r < |xs|
    ensures r == -1 <==> x !in xs
    ensures 0 <= r ==> xs[r] == x && forall j :: 0 <= j < r ==> xs[j] != x
    decreases |xs|
  {
    if xs == [] then -1
    else if xs[0] == x then 0
    else
      var k := IndexOf(xs[1..], x);
      assert xs == [xs[0]] + xs[1..];
      if k == -1 then -1 else k + 1
  }

  /** `xs[i]`: the element, or `undefined` outside the array (including the
      index -1 that a failed `indexOf` yields). */
  function At(xs: seq<string>, i: int): (r: Option<string>)
    ensures r.Some? <==> 0 <= i < |xs|
    ensures r.Some? ==> r.value == xs[i]
  {
    if 0 <= i < |xs| then Some(xs[i]) else None
  }

  // ---------------------------------------------------------------------
  // Case and search

  /** `toLowerCase()` on one character, for the ASCII letters. */
  function LowerChar(c: char): char {
    if 'A' <= c <= 'Z' then (c as int + 32) as char else c
  }

  /** `toLowerCase()` on a string (ASCII letters only). */
  function Lower(s: string): (r: string)
    ensures |r| == |s|
    ensures forall i :: 0 <= i < |s| ==> r[i] == LowerChar(s[i])
  {
    seq(|s|, i requires 0 <= i < |s| => LowerChar(s[i]))
  }

  /** Lower-casing leaves no upper-case ASCII letter and a second pass changes nothing. */
  lemma LowerIsLowerCase(s: string)
    ensures forall i :: 0 <= i < |Lower(s)| ==> !('A' <= Lower(s)[i] <= 'Z')
    ensures Lower(Lower(s)) == Lower(s)
  {
  }

  /** `t` occurs in `s` at position `i`. */
  predicate OccursAt(s: string, t: string, i: int) {
    0 <= i && i + |t| <= |s| && s[i..i + |t|] == t
  }

  /** `s.startsWith(t)`. */
  predicate StartsWith(s: string, t: string) {
    |t| <= |s| && s[..|t|] == t
  }

  /** `s.includes(t)`: tries every start position from the left. */
  predicate Includes(s: string, t: string)
    decreases |s|
  {
    StartsWith(s, t) || (s != [] && Includes(s[1..], t))
  }

  /** `includes` holds exactly when `t` occurs somewhere in `s`. */
  lemma {:induction false} IncludesIffOccurs(s: string, t: string)
    ensures Includes(s, t) <==> exists i :: OccursAt(s, t, i)
    decreases |s|
  {
    if s != [] {
      IncludesIffOccurs(s[1..], t);
      if Includes(s[1..], t) {
        var i :| OccursAt(s[1..], t, i);
        assert s[1..][i..i + |t|] == s[i + 1..i + 1 + |t|];
        assert OccursAt(s, t, i + 1);
      }
    }
    if StartsWith(s, t) {
      assert OccursAt(s, t, 0);
    }
    if exists i :: OccursAt(s, t, i) {
      var i :| OccursAt(s, t, i);
      if i == 0 {
        assert StartsWith(s, t);
      } else {
        assert s[1..][i - 1..i - 1 + |t|] == s[i..i + |t|];
        assert OccursAt(s[1..], t, i - 1);
      }
    }
  }

  /** Every string includes the empty string. */
  lemma IncludesEmpty(s: string)
    ensures Includes(s, "")
  {
    assert StartsWith(s, "");
  }

  // ---------------------------------------------------------------------
  // replace(/\s+/g, '_')

  /** No character of `s` is whitespace. */
  predicate SpaceFree(s: string) {
    forall i :: 0 <= i < |s| ==> !IsSpace(s[i])
  }

  /** `s.replace(/\s+/g, '_')`: every maximal run of whitespace becomes one
      underscore. */
  function ReplaceSpaceRuns(s: string): (r: string)
    ensures SpaceFree(r)
    ensures |r| <= |s|
    decreases |s|
  {
    if s == [] then []
    else if IsSpace(s[0]) then "_" + ReplaceSpaceRuns(TrimStart(s[1..]))
    else [s[0]] + ReplaceSpaceRuns(s[1..])
  }

  /** A string without whitespace is left as it is. */
  lemma {:induction false} ReplaceSpaceRunsKeepsSpaceFree(s: string)
    requires SpaceFree(s)
    ensures ReplaceSpaceRuns(s) == s
    decreases |s|
  {
    if s != [] {
      ReplaceSpaceRunsKeepsSpaceFree(s[1..]);
      assert [s[0]] + s[1..] == s;
    }
  }

  /** Replacing a second time changes nothing. */
  lemma ReplaceSpaceRunsIdempotent(s: string)
    ensures ReplaceSpaceRuns(ReplaceSpaceRuns(s)) == ReplaceSpaceRuns(s)
  {
    ReplaceSpaceRunsKeepsSpaceFree(ReplaceSpaceRuns(s));
  }

  /** `trimStart()` removes exactly a leading blank stretch that is followed
      by a non-space character or by nothing. */
  lemma {:induction false} TrimStartOfBlank(w: string, b: string)
    requires IsBlank(w)
    requires b == [] || !IsSpace(b[0])
    ensures TrimStart(w + b) == b
    decreases |w|
  {
    if w == [] {
      assert w + b == b;
    } else {
      assert (w + b)[1..] == w[1..] + b;
      TrimStartOfBlank(w[1..], b);
    }
  }

  /** A maximal run of whitespace becomes one `'_'`: the characters before
      it are kept in order, and the rest is replaced in the same way. */
  lemma {:induction false} ReplaceSpaceRunsRun(a: string, w: string, b: string)
    requires SpaceFree(a)
    requires |w| > 0 && IsBlank(w)
    requires b == [] || !IsSpace(b[0])
    ensures ReplaceSpaceRuns(a + w + b) == a + "_" + ReplaceSpaceRuns(b)
    decreases |a|
  {
    if a == [] {
      LeadingRun(a, w, b);
    } else {
      SpaceFreeParts(a);
      ReplaceSpaceRunsRun(a[1..], w, b);
      KeepsLeadingCharacter(a, w, b);
    }
  }

  /** Prepending a character to a three-part concatenation. */
  lemma ConsAssociates(c: char, x: string, y: string, z: string)
    ensures [c] + (x + y + z) == [c] + x + y + z
  {
  }

  /** The first character and the rest of a whitespace-free string. */
  lemma SpaceFreeParts(a: string)
    requires a != [] && SpaceFree(a)
    ensures !IsSpace(a[0]) && SpaceFree(a[1..])
  {
  }

  /** A leading whitespace run becomes one `'_'`. */
  lemma LeadingRun(a: string, w: string, b: string)
    requires a == [] && |w| > 0 && IsBlank(w)
    requires b == [] || !IsSpace(b[0])
    ensures ReplaceSpaceRuns(a + w + b) == a + "_" + ReplaceSpaceRuns(b)
  {
    var s := a + w + b;
    assert s == w + b && s[0] == w[0];
    assert s[1..] == w[1..] + b;
    TrimStartOfBlank(w[1..], b);
    assert a + "_" + ReplaceSpaceRuns(b) == "_" + ReplaceSpaceRuns(b);
  }

  /** A leading non-space character is kept in front of the replaced rest. */
  lemma KeepsLeadingCharacter(a: string, w: string, b: string)
    requires a != [] && !IsSpace(a[0])
    requires ReplaceSpaceRuns(a[1..] + w + b) == a[1..] + "_" + ReplaceSpaceRuns(b)
    ensures ReplaceSpaceRuns(a + w + b) == a + "_" + ReplaceSpaceRuns(b)
  {
    var s := a + w + b;
    assert s[0] == a[0];
    assert s[1..] == a[1..] + w + b;
    assert [a[0]] + a[1..] == a;
    ConsAssociates(a[0], a[1..], "_", ReplaceSpaceRuns(b));
  }

  /** Lower-casing changes no whitespace and so commutes with `trimStart`. */
  lemma {:induction false} TrimStartLower(s: string)
    ensures TrimStart(Lower(s)) == Lower(TrimStart(s))
    decreases |s|
  {
    if s != [] {
      if IsSpace(s[0]) {
        TrimStartLowerSpace(s);
        TrimStartLower(s[1..]);
      } else {
        TrimStartLowerOther(s);
      }
    }
  }

  /** A leading space is trimmed from `s` and from its lower-cased form. */
  lemma TrimStartLowerSpace(s: string)
    requires s != [] && IsSpace(s[0])
    ensures TrimStart(Lower(s)) == TrimStart(Lower(s[1..]))
    ensures TrimStart(s) == TrimStart(s[1..])
  {
    LowerCharSpace(s[0]);
    var l := Lower(s);
    assert l[0] == LowerChar(s[0]);
    assert l[1..] == Lower(s[1..]);
  }

  /** A leading non-space character stops the trim in `s` and in its lower-cased form. */
  lemma TrimStartLowerOther(s: string)
    requires s != [] && !IsSpace(s[0])
    ensures TrimStart(Lower(s)) == Lower(s)
    ensures TrimStart(s) == s
  {
    LowerCharSpace(s[0]);
    assert Lower(s)[0] == LowerChar(s[0]);
  }

  /** Lower-casing turns no character into whitespace and no whitespace into anything else. */
  lemma LowerCharSpace(c: char)
    ensures IsSpace(LowerChar(c)) <==> IsSpace(c)
    ensures IsSpace(c) ==> LowerChar(c) == c
  {
    if 'A' <= c <= 'Z' {
      assert 'a' <= LowerChar(c) <= 'z';
    }
  }

  /** Lower-casing distributes over concatenation. */
  lemma LowerConcat(a: string, b: string)
    ensures Lower(a + b) == Lower(a) + Lower(b)
  {
  }

  /** Lower-casing before or after the whitespace replacement gives the same string. */
  lemma {:induction false} LowerReplaceSpaceRunsCommute(s: string)
    ensures Lower(ReplaceSpaceRuns(s)) == ReplaceSpaceRuns(Lower(s))
    decreases |s|
  {
    if s != [] {
      var ls := Lower(s);
      assert ls[0] == LowerChar(s[0]) && ls[1..] == Lower(s[1..]);
      LowerCharSpace(s[0]);
      if IsSpace(s[0]) {
        var tail := TrimStart(s[1..]);
        LowerReplaceSpaceRunsCommute(tail);
        TrimStartLower(s[1..]);
        LowerConcat("_", ReplaceSpaceRuns(tail));
        assert ReplaceSpaceRuns(ls) == "_" + ReplaceSpaceRuns(TrimStart(ls[1..]));
      } else {
        LowerReplaceSpaceRunsCommute(s[1..]);
        LowerConcat([s[0]], ReplaceSpaceRuns(s[1..]));
        assert ReplaceSpaceRuns(ls) == [ls[0]] + ReplaceSpaceRuns(ls[1..]);
      }
    }
  }

  // ---------------------------------------------------------------------
  // The relational operator < on strings

  /** `a < b` on JavaScript strings: the first differing character decides,
      and a proper prefix comes first. (Dafny's own `<` on sequences means
      "proper prefix".) */
  predicate JsLess(a: string, b: string)
    decreases |a|
  {
    if a == [] then b != []
    else if b == [] then false
    else if a[0] != b[0] then a[0] < b[0]
    else JsLess(a[1..], b[1..])
  }

  /** No string is less than itself. */
  lemma {:induction false} JsLessIrreflexive(a: string)
    ensures !JsLess(a, a)
    decreases |a|
  {
    if a != [] {
      JsLessIrreflexive(a[1..]);
    }
  }

  /** `<` on strings is transitive. */
  lemma {:induction false} JsLessTransitive(a: string, b: string, c: string)
    requires JsLess(a, b) && JsLess(b, c)
    ensures JsLess(a, c)
    decreases |a|
  {
    if a != [] && b != [] && c != [] && a[0] == b[0] == c[0] {
      JsLessTransitive(a[1..], b[1..], c[1..]);
    }
  }

  /** Two different strings are ordered one way or the other, never both. */
  lemma {:induction false} JsLessTrichotomy(a: string, b: string)
    ensures a == b || JsLess(a, b) || JsLess(b, a)
    ensures !(JsLess(a, b) && JsLess(b, a))
    decreases |a|
  {
    if a != [] && b != [] && a[0] == b[0] {
      JsLessTrichotomy(a[1..], b[1..]);
      if a[1..] == b[1..] {
        assert a == [a[0]] + a[1..] && b == [b[0]] + b[1..];
      }
    }
  }

  /** A proper prefix is less than the longer string. */
  lemma {:induction false} JsLessProperPrefix(a: string, b: string)
    requires a < b
    ensures JsLess(a, b)
    decreases |a|
  {
    if a != [] {
      assert a[1..] < b[1..];
      JsLessProperPrefix(a[1..], b[1..]);
    }
  }

  // ---------------------------------------------------------------------
  // Decimal numbers

  predicate IsDigit(c: char) {
    '0' <= c <= '9'
  }

  predicate AllDigits(s: string) {
    forall i :: 0 <= i < |s| ==> IsDigit(s[i])
  }

  function DigitChar(d: nat): (c: char)
    requires d < 10
    ensures IsDigit(c)
  {
    ('0' as int + d) as char
  }

  /** The value of a string of decimal digits. */
  function DigitsValue(s: string): nat
    requires AllDigits(s)
    decreases |s|
  {
    if s == [] then 0 else DigitsValue(s[..|s| - 1]) * 10 + (s[|s| - 1] as int - '0' as int)
  }

  /** The length of the run of digits at the start of `s`. */
  function DigitRun(s: string): (n: nat)
    ensures n <= |s| && AllDigits(s[..n])
    ensures n < |s| ==> !IsDigit(s[n])
    decreases |s|
  {
    if s != [] && IsDigit(s[0]) then
      var n := 1 + DigitRun(s[1..]);
      assert s[..n] == [s[0]] + s[1..][..n - 1];
      n
    else 0
  }

  /** Number-to-string for a natural number: its decimal digits, without
      leading zeros. */
  function NatToString(n: nat): (s: string)
    ensures |s| >= 1 && AllDigits(s)
    ensures |s| > 1 ==> s[0] != '0'
  {
    if n < 10 then [DigitChar(n)] else NatToString(n / 10) + [DigitChar(n % 10)]
  }

  /** Number-to-string for an integer. */
  function IntToString(x: int): string {
    if x < 0 then "-" + NatToString(-x) else NatToString(x)
  }

  /** The digits of a natural number read back as that number. */
  lemma {:induction false} DigitsValueOfNatToString(n: nat)
    ensures DigitsValue(NatToString(n)) == n
  {
    if n >= 10 {
      DigitsValueOfNatToString(n / 10);
      var s := NatToString(n);
      assert s[..|s| - 1] == NatToString(n / 10);
    }
  }

  /** The digit run of a digit string followed by a non-digit is that string. */
  lemma {:induction false} DigitRunOfDigits(d: string, t: string)
    requires AllDigits(d)
    requires t == [] || !IsDigit(t[0])
    ensures DigitRun(d + t) == |d|
    decreases |d|
  {
    if d != [] {
      assert (d + t)[1..] == d[1..] + t;
      DigitRunOfDigits(d[1..], t);
    } else {
      assert d + t == t;
    }
  }

  /** `s` without one leading sign character. */
  function Unsigned(t: string): string {
    if |t| > 0 && (t[0] == '-' || t[0] == '+') then t[1..] else t
  }

  /** `parseInt(s, 10)`: skip leading whitespace, read an optional sign and
      the digits that follow; `NaN` (here `None`) when there are none. */
  function JsParseInt(s: string): Option<int>
    decreases |s|
  {
    if s != [] && IsSpace(s[0]) then JsParseInt(s[1..]) else SignedInteger(s)
  }

  /** The integer at the start of a string without leading whitespace. */
  function SignedInteger(t: string): Option<int> {
    var u := Unsigned(t);
    var n := DigitRun(u);
    if n == 0 then None
    else if |t| > 0 && t[0] == '-' then Some(-(DigitsValue(u[..n]) as int))
    else Some(DigitsValue(u[..n]))
  }

  /** The fraction digits of an unsigned numeral whose integer digits are
      `u[..n]`: the digits after a `.` that follows them, if any. */
  function FractionDigits(u: string, n: nat): (f: string)
    requires n <= |u|
    ensures AllDigits(f)
  {
    var rest := u[n..];
    if |rest| > 0 && rest[0] == '.' then rest[1..][..DigitRun(rest[1..])] else ""
  }

  /** The value of the fraction digits `f` after the point: `0.f`. */
  function FractionValue(f: string): (r: real)
    requires AllDigits(f)
    ensures 0.0 <= r < 1.0
    decreases |f|
  {
    if f == [] then 0.0 else ((f[0] as int - '0' as int) as real + FractionValue(f[1..])) / 10.0
  }

  /** The value of the unsigned decimal numeral at the start of `u`, if any. */
  function UnsignedDecimal(u: string): Option<real> {
    var n := DigitRun(u);
    var fraction := FractionDigits(u, n);
    if n == 0 && fraction == [] then None
    else Some(DigitsValue(u[..n]) as real + FractionValue(fraction))
  }

  /** `parseFloat(s)` on decimal numerals: skip leading whitespace, read an
      optional sign, integer digits and an optional fraction, and ignore the
      rest; `NaN` (here `None`) when no digit is read. */
  function JsParseFloat(s: string): Option<real>
    decreases |s|
  {
    if s != [] && IsSpace(s[0]) then JsParseFloat(s[1..]) else SignedDecimal(s)
  }

  /** The number at the start of a string without leading whitespace. */
  function SignedDecimal(t: string): Option<real> {
    match UnsignedDecimal(Unsigned(t))
    case None => None
    case Some(m) => Some(if |t| > 0 && t[0] == '-' then -m else m)
  }

  /** Both parsers read what is left after `trimStart()`. */
  lemma {:induction false} ParsersSkipLeadingSpace(s: string)
    ensures JsParseInt(s) == SignedInteger(TrimStart(s))
    ensures JsParseFloat(s) == SignedDecimal(TrimStart(s))
    decreases |s|
  {
    if s != [] && IsSpace(s[0]) {
      ParsersSkipLeadingSpace(s[1..]);
    }
  }

  /** A string that starts with a digit has no leading whitespace or sign. */
  lemma LeadingDigit(s: string)
    requires s != [] && IsDigit(s[0])
    ensures !IsSpace(s[0]) && Unsigned(s) == s
  {
  }

  /** Reading a natural number's digits back gives the number. */
  lemma ParseDigitsOfNat(n: nat)
    ensures DigitRun(NatToString(n)) == |NatToString(n)|
    ensures DigitsValue(NatToString(n)[..|NatToString(n)|]) == n
  {
    var d := NatToString(n);
    DigitsValueOfNatToString(n);
    DigitRunOfDigits(d, "");
    assert d + "" == d;
    assert d[..|d|] == d;
  }

  /** The unsigned part and digit run of a natural number's decimal form. */
  lemma UnsignedNatString(n: nat, signed: string)
    requires signed == NatToString(n) || signed == "-" + NatToString(n)
    ensures signed != [] && !IsSpace(signed[0])
    ensures Unsigned(signed) == NatToString(n)
    ensures (|signed| > 0 && signed[0] == '-') <==> signed != NatToString(n)
  {
    var d := NatToString(n);
    if signed == d {
      LeadingDigit(d);
    } else {
      assert signed[0] == '-' && signed[1..] == d;
    }
  }

  /** Reading an integer's decimal form back gives the integer. */
  lemma ParseIntOfIntToString(x: int)
    ensures JsParseInt(IntToString(x)) == Some(x)
  {
    var n: nat := if x < 0 then -x else x;
    ParseDigitsOfNat(n);
    UnsignedNatString(n, IntToString(x));
  }

  /** `parseFloat` reads a decimal numeral `d.f` and ignores what follows
      when that does not continue the fraction: a value such as `"57.31\r"`
      at the end of a CRLF line reads as 57.31. */
  lemma ParseFloatOfNumeral(d: string, f: string, trailer: string)
    requires |d| > 0 && AllDigits(d) && AllDigits(f)
    requires trailer == [] || !IsDigit(trailer[0])
    ensures JsParseFloat(d + ("." + f + trailer)) == Some(DigitsValue(d) as real + FractionValue(f))
  {
    var s := d + ("." + f + trailer);
    assert s[0] == d[0];
    ParseFloatOfUnsigned(s);
    DecimalNumeral(d, f, trailer);
  }

  /** `parseFloat` of a text that starts with a digit reads its unsigned numeral. */
  lemma ParseFloatOfUnsigned(s: string)
    requires s != [] && IsDigit(s[0])
    ensures JsParseFloat(s) == UnsignedDecimal(s)
  {
    LeadingDigit(s);
  }

  /** The unsigned numeral `d.f` followed by a non-digit. */
  lemma DecimalNumeral(d: string, f: string, trailer: string)
    requires |d| > 0 && AllDigits(d) && AllDigits(f)
    requires trailer == [] || !IsDigit(trailer[0])
    ensures UnsignedDecimal(d + (['.'] + f + trailer)) == Some(DigitsValue(d) as real + FractionValue(f))
  {
    var rest := ['.'] + f + trailer;
    var u := d + rest;
    assert DigitRun(u) == |d| by {
      DigitRunOfDigits(d, rest);
    }
    assert u[..|d|] == d;
    assert FractionDigits(u, |d|) == f by {
      FractionOfPoint(u, |d|, f, trailer);
    }
    NumeralParts(u, d, f);
  }

  /** A numeral with integer digits is its integer part plus its fraction. */
  lemma NumeralParts(u: string, d: string, f: string)
    requires 0 < |d| <= |u| && DigitRun(u) == |d| && u[..|d|] == d
    requires AllDigits(d) && AllDigits(f) && FractionDigits(u, |d|) == f
    ensures UnsignedDecimal(u) == Some(DigitsValue(d) as real + FractionValue(f))
  {
  }

  /** The fraction digits after a point. */
  lemma FractionOfPoint(u: string, n: nat, f: string, trailer: string)
    requires n <= |u| && AllDigits(f)
    requires trailer == [] || !IsDigit(trailer[0])
    requires u[n..] == ['.'] + f + trailer
    ensures FractionDigits(u, n) == f
  {
    var rest := u[n..];
    assert rest[1..] == f + trailer;
    DigitRunOfDigits(f, trailer);
    assert rest[1..][..|f|] == f;
  }

  /** Different integers have different decimal forms. */
  lemma IntToStringInjective(x: int, y: int)
    requires x != y
    ensures IntToString(x) != IntToString(y)
  {
    ParseIntOfIntToString(x);
    ParseIntOfIntToString(y);
  }

  /** `parseFloat` reads a natural number's digits and ignores what follows
      when that does not continue the numeral: so a `"\r"` left at the end of
      a CRLF line does not change the value. */
  lemma ParseFloatOfNatural(n: nat, trailer: string)
    requires trailer == [] || (!IsDigit(trailer[0]) && trailer[0] != '.')
    ensures JsParseFloat(NatToString(n) + trailer) == Some(n as real)
  {
    var d := NatToString(n);
    var s := d + trailer;
    assert s[0] == d[0];
    LeadingDigit(s);
    assert UnsignedDecimal(s) == Some(n as real) by {
      DigitsValueOfNatToString(n);
      DigitRunOfDigits(d, trailer);
      assert s[..|d|] == d && s[|d|..] == trailer;
      assert FractionDigits(s, |d|) == "";
    }
  }
}
