/**
 * The JavaScript string primitives that getTrendingMovies relies on, over
 * strings of Unicode scalar values: the `\s` character class,
 * `String.prototype.trim`, `replace(/\s+/g, " ")`, `split` on one character
 * and the decimal digit scan of `parseInt(_, 10)`.
 */
module Text {

  import opened Wrappers

  /** ECMAScript's `\s`: the WhiteSpace and LineTerminator code points
      (TAB, VT, FF, SPACE, NBSP, ZWNBSP, the Zs category, LF, CR, LS, PS).
      `trim` strips exactly these as well. */
  predicate IsSpace(c: char) {
    c == '\t' || c == '\n' || c == '\U{000B}' || c == '\U{000C}' || c == '\r' || c == ' '
    || c == '\U{00A0}' || c == '\U{1680}' || ('\U{2000}' <= c <= '\U{200A}')
    || c == '\U{2028}' || c == '\U{2029}' || c == '\U{202F}' || c == '\U{205F}'
    || c == '\U{3000}' || c == '\U{FEFF}'
  }

  /** ECMAScript's `\d` and the radix-10 digits of `parseInt`: ASCII digits only. */
  predicate IsDigit(c: char) {
    '0' <= c <= '9'
  }

  predicate AllSpace(s: string) {
    forall i :: 0 <= i < |s| ==> IsSpace(s[i])
  }

  predicate AllDigits(s: string) {
    forall i :: 0 <= i < |s| ==> IsDigit(s[i])
  }

  // ---------------------------------------------------------------------------
  // trim

  /** Drops the leading whitespace: the result is a suffix of `s` that does not
      start with whitespace, and everything dropped is whitespace. */
  function TrimStart(s: string): (r: string)
    ensures |r| <= |s|
    ensures r == [] || !IsSpace(r[0])
  {
    if s != [] && IsSpace(s[0]) then TrimStart(s[1..]) else s
  }

  /** What TrimStart drops is a whitespace prefix, and what it keeps is the rest. */
  lemma {:induction false} TrimStartDrops(s: string)
    ensures s == s[..|s| - |TrimStart(s)|] + TrimStart(s)
    ensures AllSpace(s[..|s| - |TrimStart(s)|])
  {
    if s != [] && IsSpace(s[0]) {
      TrimStartDrops(s[1..]);
      assert s[..|s| - |TrimStart(s)|] == [s[0]] + s[1..][..|s| - 1 - |TrimStart(s)|];
    }
  }

  /** Drops the trailing whitespace: the result is a prefix of `s` that does not
      end with whitespace, and everything dropped is whitespace. */
  function TrimEnd(s: string): (r: string)
    ensures |r| <= |s| && r == s[..|r|]
    ensures AllSpace(s[|r|..])
    ensures r == [] || !IsSpace(r[|r| - 1])
  {
    if s != [] && IsSpace(s[|s| - 1]) then TrimEnd(s[..|s| - 1]) else s
  }

  /** `String.prototype.trim`: the middle slice of `s` left once the whitespace
      at both ends is removed; it neither starts nor ends with whitespace. */
  function Trim(s: string): (r: string)
    ensures r == [] || (!IsSpace(r[0]) && !IsSpace(r[|r| - 1]))
    ensures exists i :: 0 <= i <= |s| - |r| && r == s[i..i + |r|]
                        && AllSpace(s[..i]) && AllSpace(s[i + |r|..])
  {
    var t := TrimStart(s);
    var r := TrimEnd(t);
    TrimStartDrops(s);
    assert r == s[|s| - |t|..|s| - |t| + |r|];
    assert s[|s| - |t| + |r|..] == t[|r|..];
    r
  }

  // ---------------------------------------------------------------------------
  // replace(/\s+/g, " ")

  /** A string in the form that whitespace collapsing produces: every whitespace
      character is a plain space and no two whitespace characters are adjacent. */
  predicate Collapsed(s: string) {
    s == [] ||
    ((IsSpace(s[0]) ==> s[0] == ' ' && (|s| > 1 ==> !IsSpace(s[1]))) && Collapsed(s[1..]))
  }

  /** `s.replace(/\s+/g, " ")`: every maximal run of whitespace becomes one space. */
  function Collapse(s: string): (r: string)
    ensures Collapsed(r)
    ensures |r| <= |s|
    ensures r == [] <==> s == []
    ensures r != [] ==> (IsSpace(r[0]) <==> IsSpace(s[0]))
    decreases |s|
  {
    if s == [] then []
    else if IsSpace(s[0]) then [' '] + Collapse(TrimStart(s[1..]))
    else [s[0]] + Collapse(s[1..])
  }

  /** The characters that are not whitespace, in order. */
  function Visible(s: string): (r: string)
    ensures |r| <= |s|
  {
    if s == [] then []
    else if IsSpace(s[0]) then Visible(s[1..])
    else [s[0]] + Visible(s[1..])
  }

  lemma {:induction false} VisibleAllSpace(s: string)
    requires AllSpace(s)
    ensures Visible(s) == []
  {
    if s != [] {
      VisibleAllSpace(s[1..]);
    }
  }

  lemma {:induction false} VisibleConcat(a: string, b: string)
    ensures Visible(a + b) == Visible(a) + Visible(b)
  {
    if a != [] {
      assert (a + b)[0] == a[0] && (a + b)[1..] == a[1..] + b;
      VisibleConcat(a[1..], b);
    } else {
      assert a + b == b;
    }
  }

  /** Collapsing keeps every non-whitespace character, in order, and only those. */
  lemma {:induction false} CollapseKeepsVisible(s: string)
    ensures Visible(Collapse(s)) == Visible(s)
    decreases |s|
  {
    if s != [] {
      if IsSpace(s[0]) {
        var t := TrimStart(s[1..]);
        CollapseKeepsVisible(t);
        TrimStartDrops(s[1..]);
        VisibleConcat(s[1..][..|s| - 1 - |t|], t);
        VisibleAllSpace(s[1..][..|s| - 1 - |t|]);
      } else {
        CollapseKeepsVisible(s[1..]);
      }
    }
  }

  /** The strings that collapsing leaves unchanged are exactly the collapsed ones. */
  lemma {:induction false} CollapseFixpoint(s: string)
    ensures Collapse(s) == s <==> Collapsed(s)
    decreases |s|
  {
    if s != [] && Collapsed(s) {
      assert Collapsed(s[1..]);
      CollapseFixpoint(s[1..]);
      if IsSpace(s[0]) {
        assert TrimStart(s[1..]) == s[1..];
      }
    }
  }

  /** Collapsing whitespace twice is the same as collapsing it once. */
  lemma CollapseIdempotent(s: string)
    ensures Collapse(Collapse(s)) == Collapse(s)
  {
    CollapseFixpoint(Collapse(s));
  }

  /** Collapsing distributes over a concatenation whose left part does not end in
      whitespace, since no whitespace run can then straddle the seam. */
  lemma {:induction false} CollapseConcat(a: string, b: string)
    requires a == [] || !IsSpace(a[|a| - 1])
    ensures Collapse(a + b) == Collapse(a) + Collapse(b)
    decreases |a|
  {
    if a == [] {
      assert a + b == b;
    } else if IsSpace(a[0]) {
      // a[0] is whitespace but a's last character is not, so trimming a[1..]
      // stops inside a.
      var t := TrimStart(a[1..]);
      TrimStartDrops(a[1..]);
      assert a[|a| - 1] == a[1..][|a| - 2];
      assert t != [];
      assert t[|t| - 1] == a[|a| - 1];
      CollapseConcat(t, b);
      CollapseSpaceStep(a, b);
    } else {
      CollapseConcat(a[1..], b);
      var ab := a + b;
      assert ab[0] == a[0] && ab[1..] == a[1..] + b;
      assert Collapse(ab) == [a[0]] + Collapse(a[1..] + b);
      assert Collapse(a) == [a[0]] + Collapse(a[1..]);
      AppendAssoc([a[0]], Collapse(a[1..]), Collapse(b));
    }
  }

  /** One step of CollapseConcat when `a` starts with whitespace. */
  lemma CollapseSpaceStep(a: string, b: string)
    requires a != [] && IsSpace(a[0]) && TrimStart(a[1..]) != []
    requires Collapse(TrimStart(a[1..]) + b) == Collapse(TrimStart(a[1..])) + Collapse(b)
    ensures Collapse(a + b) == Collapse(a) + Collapse(b)
  {
    var ab := a + b;
    var t := TrimStart(a[1..]);
    assert ab[0] == a[0] && ab[1..] == a[1..] + b;
    TrimStartConcat(a[1..], b);
    assert Collapse(ab) == [' '] + Collapse(t + b);
    assert Collapse(a) == [' '] + Collapse(t);
    AppendAssoc([' '], Collapse(t), Collapse(b));
  }

  lemma AppendAssoc<T>(p: seq<T>, q: seq<T>, r: seq<T>)
    ensures p + (q + r) == (p + q) + r
  {
  }

  lemma {:induction false} TrimStartConcat(a: string, b: string)
    requires TrimStart(a) != []
    ensures TrimStart(a + b) == TrimStart(a) + b
  {
    assert a != [];
    if IsSpace(a[0]) {
      assert (a + b)[1..] == a[1..] + b;
      TrimStartConcat(a[1..], b);
    }
  }

  // ---------------------------------------------------------------------------
  // split on one separator character

  /** `s.split(sep)` for a one-character separator: the pieces between the
      separators, always at least one (`"".split("-")` is `[""]`). */
  function Split(s: string, sep: char): (parts: seq<string>)
    ensures |parts| >= 1
    ensures forall k :: 0 <= k < |parts| ==> sep !in parts[k]
    ensures parts[0] <= s
    ensures |parts[0]| < |s| ==> s[|parts[0]|] == sep
  {
    if s == [] then [[]]
    else
      var rest := Split(s[1..], sep);
      if s[0] == sep then [[]] + rest
      else [[s[0]] + rest[0]] + rest[1..]
  }

  /** `parts.join(sep)`. */
  function Join(parts: seq<string>, sep: char): string
    requires |parts| >= 1
  {
    if |parts| == 1 then parts[0] else parts[0] + [sep] + Join(parts[1..], sep)
  }

  /** Splitting and joining again gives back the original string. */
  lemma {:induction false} JoinSplit(s: string, sep: char)
    ensures Join(Split(s, sep), sep) == s
  {
    if s != [] {
      var rest := Split(s[1..], sep);
      JoinSplit(s[1..], sep);
      if s[0] != sep {
        if |rest| > 1 {
          assert ([[s[0]] + rest[0]] + rest[1..])[1..] == rest[1..];
        }
      } else {
        assert ([[]] + rest)[1..] == rest;
      }
    }
  }

  /** Joining separator-free pieces and splitting again gives back the pieces. */
  lemma {:induction false} SplitJoin(parts: seq<string>, sep: char)
    requires |parts| >= 1
    requires forall k :: 0 <= k < |parts| ==> sep !in parts[k]
    ensures Split(Join(parts, sep), sep) == parts
    decreases |parts|, |parts[0]|
  {
    var p := parts[0];
    if p == [] {
      if |parts| > 1 {
        SplitJoin(parts[1..], sep);
        assert Join(parts, sep) == [sep] + Join(parts[1..], sep);
        assert ([sep] + Join(parts[1..], sep))[1..] == Join(parts[1..], sep);
        assert parts == [[]] + parts[1..];
      }
    } else {
      var tail := [p[1..]] + parts[1..];
      assert tail[1..] == parts[1..];
      SplitJoin(tail, sep);
      assert Join(parts, sep) == [p[0]] + Join(tail, sep) by {
        if |parts| > 1 {
          assert Join(tail, sep) == p[1..] + [sep] + Join(parts[1..], sep);
        }
      }
      assert ([p[0]] + Join(tail, sep))[1..] == Join(tail, sep);
      var rest := Split(Join(tail, sep), sep);
      assert rest == tail;
      assert [p[0]] + rest[0] == p;
      assert parts == [[p[0]] + rest[0]] + rest[1..];
    }
  }

  // ---------------------------------------------------------------------------
  // decimal digits

  function DigitValue(c: char): nat
    requires IsDigit(c)
  {
    c as int - '0' as int
  }

  function DigitChar(d: nat): char
    requires d < 10
  {
    ('0' as int + d) as char
  }

  /** The value of a string of decimal digits, most significant first. */
  function DigitsValue(s: string): nat
    requires AllDigits(s)
  {
    if s == [] then 0 else 10 * DigitsValue(s[..|s| - 1]) + DigitValue(s[|s| - 1])
  }

  /** The longest prefix of `s` made of decimal digits. */
  function DigitRun(s: string): (r: string)
    ensures AllDigits(r) && r <= s
    ensures |r| < |s| ==> !IsDigit(s[|r|])
  {
    if s != [] && IsDigit(s[0]) then [s[0]] + DigitRun(s[1..]) else []
  }

  /** The shortest decimal numeral of `n`, as `String(n)` writes it. */
  function Decimal(n: nat): (r: string)
    ensures |r| >= 1 && AllDigits(r)
  {
    if n < 10 then [DigitChar(n)] else Decimal(n / 10) + [DigitChar(n % 10)]
  }

  /** Reading back a numeral gives the number it was written from. */
  lemma {:induction false} DecimalValue(n: nat)
    ensures DigitsValue(Decimal(n)) == n
  {
    if n >= 10 {
      var d := Decimal(n);
      assert d[..|d| - 1] == Decimal(n / 10);
      DecimalValue(n / 10);
    }
  }

  /** The digit run of a digit string followed by a non-digit is that string. */
  lemma {:induction false} DigitRunPrefix(a: string, b: string)
    requires AllDigits(a)
    requires b == [] || !IsDigit(b[0])
    ensures DigitRun(a + b) == a
  {
    if a != [] {
      assert (a + b)[1..] == a[1..] + b;
      DigitRunPrefix(a[1..], b);
    }
  }

  /** The text after at most one leading `+` or `-`. */
  function Unsigned(t: string): (u: string)
    ensures u == t || (t != [] && (t[0] == '+' || t[0] == '-') && u == t[1..])
  {
    if t != [] && (t[0] == '-' || t[0] == '+') then t[1..] else t
  }

  /** `parseInt(s, 10)` with a numeric result: leading whitespace is skipped, one
      optional `+` or `-` is read, then the longest run of decimal digits; no
      digits at all gives NaN, here `None`. The result is NaN exactly when no
      digit follows the optional sign, and it is negative only after a `-`. */
  function ParseInt10(s: string): (r: Option<int>)
    ensures var u := Unsigned(TrimStart(s));
            r.None? <==> u == [] || !IsDigit(u[0])
    ensures r.Some? && r.value < 0 ==> TrimStart(s)[0] == '-'
  {
    var t := TrimStart(s);
    var negative := t != [] && t[0] == '-';
    var digits := DigitRun(Unsigned(t));
    var magnitude: int := if digits == [] then 0 else DigitsValue(digits);
    if digits == [] then None
    else if negative then Some(-magnitude)
    else Some(magnitude)
  }

  /** `parseInt` of a sign (none, `+` or `-`), a run of digits (leading zeros
      allowed) and any text that does not continue the run: the run's value,
      negated after `-`. */
  lemma ParseIntDigits(sign: string, digits: string, tail: string)
    requires sign == "" || sign == "+" || sign == "-"
    requires digits != [] && AllDigits(digits)
    requires tail == [] || !IsDigit(tail[0])
    ensures ParseInt10(sign + digits + tail)
            == Some(if sign == "-" then -(DigitsValue(digits) as int) else DigitsValue(digits) as int)
  {
    if |sign| == 0 {
      assert sign + digits == digits;
      ParseIntOfRun(digits + tail, digits, tail);
    } else {
      assert sign == [sign[0]];
      var s := [sign[0]] + (digits + tail);
      assert sign + digits + tail == s;
      assert s[1..] == digits + tail;
      ParseIntOfRun(s, digits, tail);
    }
  }

  /** The step of ParseIntDigits after the sign is read. */
  lemma ParseIntOfRun(s: string, digits: string, tail: string)
    requires s != [] && !IsSpace(s[0])
    requires Unsigned(s) == digits + tail
    requires digits != [] && AllDigits(digits)
    requires tail == [] || !IsDigit(tail[0])
    ensures ParseInt10(s)
            == Some(if s[0] == '-' then -(DigitsValue(digits) as int) else DigitsValue(digits) as int)
  {
    assert TrimStart(s) == s;
    DigitRunPrefix(digits, tail);
  }
}
