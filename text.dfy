/** String helpers that stand for the JavaScript string operations the editor
    uses: `Number.prototype.toString` on integers, `String.prototype.startsWith`
    and the regular-expression replacement `replace(/\s+/g, '_')`. */
module Text {

  // ---------------------------------------------------------------------------
  // Decimal rendering of integers
  // ---------------------------------------------------------------------------

  function DigitChar(d: nat): (c: char)
    requires d < 10
    ensures '0' <= c <= '9'
    ensures c as int - '0' as int == d
  {
    ('0' as int + d) as char
  }

  predicate IsDigits(s: string) {
    forall i :: 0 <= i < |s| ==> '0' <= s[i] <= '9'
  }

  /** The decimal text of a natural number, as `n.toString()` prints it:
      at least one digit and no leading zero. */
  function NatToDecimal(n: nat): (s: string)
    ensures 1 <= |s| && IsDigits(s)
    ensures s[0] == '0' <==> n == 0
    decreases n
  {
    if n < 10 then [DigitChar(n)] else NatToDecimal(n / 10) + [DigitChar(n % 10)]
  }

  /** The value of a string of decimal digits (the inverse of NatToDecimal). */
  function DecimalValue(s: string): nat
    requires IsDigits(s)
  {
    if s == [] then 0 else DecimalValue(s[..|s| - 1]) * 10 + (s[|s| - 1] as int - '0' as int)
  }

  lemma {:induction false} DecimalRoundTrip(n: nat)
    ensures DecimalValue(NatToDecimal(n)) == n
  {
    if n >= 10 {
      var s := NatToDecimal(n);
      assert s[..|s| - 1] == NatToDecimal(n / 10);
      DecimalRoundTrip(n / 10);
    }
  }

  /** `i.toString()` for an integer `i`: a minus sign before the digits of a
      negative number. */
  function IntToDecimal(i: int): (s: string)
    ensures i >= 0 ==> s == NatToDecimal(i)
    ensures i < 0 ==> 2 <= |s| && s[0] == '-' && s[1..] == NatToDecimal(-i)
  {
    if i < 0 then "-" + NatToDecimal(-i) else NatToDecimal(i)
  }

  // ---------------------------------------------------------------------------
  // Prefix test
  // ---------------------------------------------------------------------------

  /** `s.startsWith(prefix)`. */
  predicate StartsWith(s: string, prefix: string) {
    |prefix| <= |s| && s[..|prefix|] == prefix
  }

  /** `s` starts with `prefix` exactly when it is `prefix` followed by
      something. */
  lemma StartsWithConcat(s: string, prefix: string)
    ensures StartsWith(s, prefix) <==> exists rest :: s == prefix + rest
  {
    if StartsWith(s, prefix) {
      assert s == prefix + s[|prefix|..];
    }
    if exists rest :: s == prefix + rest {
      var rest :| s == prefix + rest;
      assert s[..|prefix|] == prefix;
    }
  }

  // ---------------------------------------------------------------------------
  // Whitespace runs
  // ---------------------------------------------------------------------------

  /** The characters matched by the regular-expression class `\s`
      (ECMAScript white space and line terminators). */
  predicate IsSpace(c: char) {
    || c == '\t' || c == '\n' || c == '\U{B}' || c == '\U{C}' || c == '\r'
    || c == ' ' || c == '\U{A0}' || c == '\U{1680}'
    || ('\U{2000}' <= c <= '\U{200A}')
    || c == '\U{2028}' || c == '\U{2029}' || c == '\U{202F}' || c == '\U{205F}'
    || c == '\U{3000}' || c == '\U{FEFF}'
  }

  predicate NoSpace(s: string) {
    forall i :: 0 <= i < |s| ==> !IsSpace(s[i])
  }

  /** `s` with its leading run of whitespace dropped. */
  function SkipSpaces(s: string): (r: string)
    ensures r == [] || !IsSpace(r[0])
    ensures |r| <= |s|
  {
    if s != [] && IsSpace(s[0]) then SkipSpaces(s[1..]) else s
  }

  /** `s.replace(/\s+/g, '_')`: every maximal run of whitespace becomes one
      underscore. */
  function ReplaceSpaceRuns(s: string): (r: string)
    ensures |r| <= |s|
    ensures |r| == 0 <==> |s| == 0
    decreases |s|
  {
    if s == [] then []
    else if IsSpace(s[0]) then "_" + ReplaceSpaceRuns(SkipSpaces(s[1..]))
    else [s[0]] + ReplaceSpaceRuns(s[1..])
  }

  /** The result holds no whitespace character. */
  lemma {:induction false} ReplaceSpaceRunsNoSpace(s: string)
    ensures NoSpace(ReplaceSpaceRuns(s))
    decreases |s|
  {
    if s != [] {
      if IsSpace(s[0]) {
        ReplaceSpaceRunsNoSpace(SkipSpaces(s[1..]));
      } else {
        ReplaceSpaceRunsNoSpace(s[1..]);
      }
    }
  }

  /** A string without whitespace is left as it is. */
  lemma {:induction false} ReplaceSpaceRunsIdentity(s: string)
    requires NoSpace(s)
    ensures ReplaceSpaceRuns(s) == s
  {
    if s != [] {
      ReplaceSpaceRunsIdentity(s[1..]);
    }
  }

  /** Replacing twice is replacing once. */
  lemma ReplaceSpaceRunsIdempotent(s: string)
    ensures ReplaceSpaceRuns(ReplaceSpaceRuns(s)) == ReplaceSpaceRuns(s)
  {
    ReplaceSpaceRunsNoSpace(s);
    ReplaceSpaceRunsIdentity(ReplaceSpaceRuns(s));
  }

  lemma {:induction false} SkipSpacesAll(w: string, b: string)
    requires forall i :: 0 <= i < |w| ==> IsSpace(w[i])
    requires b == [] || !IsSpace(b[0])
    ensures SkipSpaces(w + b) == b
  {
    if w != [] {
      assert (w + b)[1..] == w[1..] + b;
      SkipSpacesAll(w[1..], b);
    }
  }

  lemma {:induction false} SkipSpacesConcat(a: string, b: string)
    requires a != [] && !IsSpace(a[|a| - 1])
    ensures SkipSpaces(a + b) == SkipSpaces(a) + b
    ensures SkipSpaces(a) != [] && !IsSpace(SkipSpaces(a)[|SkipSpaces(a)| - 1])
  {
    if IsSpace(a[0]) {
      assert (a + b)[1..] == a[1..] + b;
      SkipSpacesConcat(a[1..], b);
    }
  }

  /** The replacement works piecewise across a boundary that follows a
      non-whitespace character. */
  lemma {:induction false} ReplaceSpaceRunsConcat(a: string, b: string)
    requires a != [] && !IsSpace(a[|a| - 1])
    ensures ReplaceSpaceRuns(a + b) == ReplaceSpaceRuns(a) + ReplaceSpaceRuns(b)
    decreases |a|
  {
    if IsSpace(a[0]) {
      var rest := SkipSpaces(a[1..]);
      SkipSpacesConcat(a[1..], b);
      ReplaceSpaceRunsConcat(rest, b);
      ConcatAfterSpace(a, b, rest);
    } else if |a| == 1 {
      ConcatAfterLast(a, b);
    } else {
      ReplaceSpaceRunsConcat(a[1..], b);
      ConcatAfterChar(a, b);
    }
  }

  /** One step of the replacement at a leading whitespace character. */
  lemma UnfoldSpace(s: string)
    requires s != [] && IsSpace(s[0])
    ensures ReplaceSpaceRuns(s) == "_" + ReplaceSpaceRuns(SkipSpaces(s[1..]))
  {
  }

  /** The same step on `a + b`, when the run of `a` ends inside `a`. */
  lemma UnfoldSpaceConcat(a: string, b: string, rest: string)
    requires a != [] && IsSpace(a[0])
    requires rest == SkipSpaces(a[1..]) && SkipSpaces(a[1..] + b) == rest + b
    ensures ReplaceSpaceRuns(a + b) == "_" + ReplaceSpaceRuns(rest + b)
  {
    ConcatHeadTail(a, b);
    UnfoldSpaceAt(a + b, rest + b);
  }

  lemma ConcatHeadTail(a: string, b: string)
    requires a != []
    ensures (a + b)[0] == a[0] && (a + b)[1..] == a[1..] + b
  {
  }

  /** `UnfoldSpace` with the text after the run given by name. */
  lemma UnfoldSpaceAt(s: string, tail: string)
    requires s != [] && IsSpace(s[0]) && tail == SkipSpaces(s[1..])
    ensures ReplaceSpaceRuns(s) == "_" + ReplaceSpaceRuns(tail)
  {
    UnfoldSpace(s);
  }

  /** The step of `ReplaceSpaceRunsConcat` for a leading whitespace run that
      ends inside `a`, at `rest`. */
  lemma ConcatAfterSpace(a: string, b: string, rest: string)
    requires a != [] && IsSpace(a[0])
    requires rest == SkipSpaces(a[1..]) && SkipSpaces(a[1..] + b) == rest + b
    requires ReplaceSpaceRuns(rest + b) == ReplaceSpaceRuns(rest) + ReplaceSpaceRuns(b)
    ensures ReplaceSpaceRuns(a + b) == ReplaceSpaceRuns(a) + ReplaceSpaceRuns(b)
  {
    UnfoldSpace(a);
    UnfoldSpaceConcat(a, b, rest);
    PrefixRegroup(ReplaceSpaceRuns(a + b), ReplaceSpaceRuns(a), ReplaceSpaceRuns(rest + b),
                  ReplaceSpaceRuns(rest), ReplaceSpaceRuns(b));
  }

  lemma PrefixRegroup(whole: string, first: string, tail: string, x: string, y: string)
    requires whole == "_" + tail && tail == x + y && first == "_" + x
    ensures whole == first + y
  {
    assert ("_" + x) + y == "_" + (x + y);
  }

  /** The step of `ReplaceSpaceRunsConcat` for a single non-whitespace character. */
  lemma ConcatAfterLast(a: string, b: string)
    requires |a| == 1 && !IsSpace(a[0])
    ensures ReplaceSpaceRuns(a + b) == ReplaceSpaceRuns(a) + ReplaceSpaceRuns(b)
  {
    var ab := a + b;
    assert ab[0] == a[0];
    assert ab[1..] == b;
    assert a[1..] == [];
    assert ReplaceSpaceRuns(a) == [a[0]] + ReplaceSpaceRuns([]);
  }

  /** The step of `ReplaceSpaceRunsConcat` for a leading non-whitespace character. */
  lemma ConcatAfterChar(a: string, b: string)
    requires |a| > 1 && !IsSpace(a[0])
    requires ReplaceSpaceRuns(a[1..] + b) == ReplaceSpaceRuns(a[1..]) + ReplaceSpaceRuns(b)
    ensures ReplaceSpaceRuns(a + b) == ReplaceSpaceRuns(a) + ReplaceSpaceRuns(b)
  {
    var ab := a + b;
    assert ab[0] == a[0];
    assert ab[1..] == a[1..] + b;
    calc {
      ReplaceSpaceRuns(ab);
      [a[0]] + ReplaceSpaceRuns(a[1..] + b);
      [a[0]] + (ReplaceSpaceRuns(a[1..]) + ReplaceSpaceRuns(b));
      ([a[0]] + ReplaceSpaceRuns(a[1..])) + ReplaceSpaceRuns(b);
    }
  }

  /** A whole run of whitespace, followed by text that does not start with
      whitespace, collapses to exactly one underscore. */
  lemma ReplaceSpaceRunsRun(w: string, b: string)
    requires w != [] && forall i :: 0 <= i < |w| ==> IsSpace(w[i])
    requires b == [] || !IsSpace(b[0])
    ensures ReplaceSpaceRuns(w + b) == "_" + ReplaceSpaceRuns(b)
  {
    var wb := w + b;
    assert wb[0] == w[0];
    assert wb[1..] == w[1..] + b;
    SkipSpacesAll(w[1..], b);
    UnfoldSpace(wb);
  }
}
