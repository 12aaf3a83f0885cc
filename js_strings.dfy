/** The few ECMAScript string built-ins the server relies on: the whitespace class
    matched by `\s` and removed by `String.prototype.trim`, `trim` itself,
    `String.prototype.includes`, and the decimal rendering of an integer in a template literal. */
module JsStrings {

  /** ECMAScript WhiteSpace and LineTerminator code points: tab, line tabulation, form feed,
      space, no-break space, zero-width no-break space, the other Zs space separators,
      line feed, carriage return, line separator and paragraph separator. */
  predicate IsWhitespace(c: char)
    ensures c == ' ' || c == '\t' || c == '\n' || c == '\r' || c == '\U{000B}' || c == '\U{000C}' ==> IsWhitespace(c)
    ensures '0' <= c <= '9' || 'A' <= c <= 'Z' || 'a' <= c <= 'z' ==> !IsWhitespace(c)
  {
    var n := c as int;
    n == 0x09 || n == 0x0A || n == 0x0B || n == 0x0C || n == 0x0D || n == 0x20 ||
    n == 0xA0 || n == 0x1680 || (0x2000 <= n <= 0x200A) || n == 0x2028 || n == 0x2029 ||
    n == 0x202F || n == 0x205F || n == 0x3000 || n == 0xFEFF
  }

  predicate AllWhitespace(s: string) {
    forall i :: 0 <= i < |s| ==> IsWhitespace(s[i])
  }

  /** True when `s` neither begins nor ends with whitespace. */
  predicate NoEdgeWhitespace(s: string) {
    s == [] || (!IsWhitespace(s[0]) && !IsWhitespace(s[|s| - 1]))
  }

  /** `s` with every whitespace character deleted: what two texts must agree on to
      differ in spacing only. */
  function NonWhitespace(s: string): (r: string)
    ensures |r| <= |s|
    ensures forall i :: 0 <= i < |r| ==> !IsWhitespace(r[i])
  {
    if s == [] then []
    else if IsWhitespace(s[0]) then NonWhitespace(s[1..])
    else [s[0]] + NonWhitespace(s[1..])
  }

  lemma {:induction false} NonWhitespaceAppend(a: string, b: string)
    ensures NonWhitespace(a + b) == NonWhitespace(a) + NonWhitespace(b)
  {
    if a == [] {
      assert a + b == b;
    } else {
      assert (a + b)[0] == a[0];
      assert (a + b)[1..] == a[1..] + b;
      NonWhitespaceAppend(a[1..], b);
    }
  }

  lemma {:induction false} NonWhitespaceOfBlank(s: string)
    requires AllWhitespace(s)
    ensures NonWhitespace(s) == []
  {
    if s != [] {
      NonWhitespaceOfBlank(s[1..]);
    }
  }

  /** `String.prototype.trimStart`: the suffix left after the leading whitespace. */
  function TrimStart(s: string): (r: string)
    ensures |r| <= |s| && r == s[|s| - |r|..]
    ensures r == [] || !IsWhitespace(r[0])
  {
    if s != [] && IsWhitespace(s[0]) then TrimStart(s[1..]) else s
  }

  /** What `trimStart` removes is whitespace. */
  lemma {:induction false} TrimStartRemovesBlank(s: string)
    ensures AllWhitespace(s[..|s| - |TrimStart(s)|])
  {
    if s != [] && IsWhitespace(s[0]) {
      TrimStartRemovesBlank(s[1..]);
      var n := |s| - |TrimStart(s)|;
      forall k | 0 <= k < n ensures IsWhitespace(s[..n][k]) {
        if k > 0 {
          assert s[..n][k] == s[1..][..n - 1][k - 1];
        }
      }
    }
  }

  /** `String.prototype.trimEnd`: the prefix left before the trailing whitespace. */
  function TrimEnd(s: string): (r: string)
    ensures |r| <= |s| && r == s[..|r|]
    ensures r == [] || !IsWhitespace(r[|r| - 1])
  {
    if s != [] && IsWhitespace(s[|s| - 1]) then TrimEnd(s[..|s| - 1]) else s
  }

  /** What `trimEnd` removes is whitespace. */
  lemma {:induction false} TrimEndRemovesBlank(s: string)
    ensures AllWhitespace(s[|TrimEnd(s)|..])
  {
    if s != [] && IsWhitespace(s[|s| - 1]) {
      var p := s[..|s| - 1];
      TrimEndRemovesBlank(p);
      var n := |TrimEnd(s)|;
      forall k | 0 <= k < |s| - n ensures IsWhitespace(s[n..][k]) {
        if k < |s| - n - 1 {
          assert s[n..][k] == p[n..][k];
        }
      }
    }
  }

  /** Deleting whitespace from a text ignores a blank prefix. */
  lemma NonWhitespaceAfterBlank(s: string, i: nat)
    requires i <= |s| && AllWhitespace(s[..i])
    ensures NonWhitespace(s[i..]) == NonWhitespace(s)
  {
    assert s == s[..i] + s[i..];
    NonWhitespaceAppend(s[..i], s[i..]);
    NonWhitespaceOfBlank(s[..i]);
  }

  /** Deleting whitespace from a text ignores a blank suffix. */
  lemma NonWhitespaceBeforeBlank(s: string, j: nat)
    requires j <= |s| && AllWhitespace(s[j..])
    ensures NonWhitespace(s[..j]) == NonWhitespace(s)
  {
    assert s == s[..j] + s[j..];
    NonWhitespaceAppend(s[..j], s[j..]);
    NonWhitespaceOfBlank(s[j..]);
  }

  /** `String.prototype.trim`: a slice of `s` with no whitespace at either end, obtained
      by deleting whitespace only; a string with no edge whitespace is its own trim. */
  function Trim(s: string): (r: string)
    ensures |r| <= |s|
    ensures NoEdgeWhitespace(r)
    ensures exists i :: OccursAt(s, r, i)
    ensures NonWhitespace(r) == NonWhitespace(s)
    ensures NoEdgeWhitespace(s) ==> r == s
  {
    TrimIsSlice(s);
    TrimKeepsWords(s);
    TrimEnd(TrimStart(s))
  }

  lemma TrimIsSlice(s: string)
    ensures OccursAt(s, TrimEnd(TrimStart(s)), |s| - |TrimStart(s)|)
  {
    PrefixOfSuffix(s, TrimStart(s), TrimEnd(TrimStart(s)));
  }

  /** A prefix of a suffix of `s` occurs in `s` where the suffix starts. */
  lemma PrefixOfSuffix(s: string, t: string, r: string)
    requires |t| <= |s| && t == s[|s| - |t|..]
    requires |r| <= |t| && r == t[..|r|]
    ensures OccursAt(s, r, |s| - |t|)
  {
    var i := |s| - |t|;
    assert s[i..][..|r|] == s[i..i + |r|];
  }

  lemma TrimKeepsWords(s: string)
    ensures NonWhitespace(TrimEnd(TrimStart(s))) == NonWhitespace(s)
  {
    var t := TrimStart(s);
    TrimStartRemovesBlank(s);
    TrimEndRemovesBlank(t);
    NonWhitespaceAfterBlank(s, |s| - |t|);
    NonWhitespaceBeforeBlank(t, |TrimEnd(t)|);
  }

  /** `sub` occurs in `s` starting at index `i`. */
  predicate OccursAt(s: string, sub: string, i: int) {
    0 <= i && i + |sub| <= |s| && s[i..i + |sub|] == sub
  }

  /** `String.prototype.includes`: `sub` occurs in `s` as a contiguous slice; a prefix
      or a suffix does. */
  predicate Contains(s: string, sub: string)
    ensures Contains(s, sub) ==> |sub| <= |s|
    ensures sub == [] ==> Contains(s, sub)
    ensures sub <= s ==> Contains(s, sub)
    ensures |sub| <= |s| && s[|s| - |sub|..] == sub ==> Contains(s, sub)
  {
    assert OccursAt(s, [], 0);
    assert sub <= s ==> OccursAt(s, sub, 0);
    assert |sub| <= |s| && s[|s| - |sub|..] == sub ==> OccursAt(s, sub, |s| - |sub|);
    exists i | 0 <= i <= |s| - |sub| :: OccursAt(s, sub, i)
  }

  /** Every character of an occurrence is a character of the text. */
  lemma OccurrenceChars(s: string, sub: string, i: int)
    ensures OccursAt(s, sub, i) ==> forall k :: 0 <= k < |sub| ==> sub[k] in s
  {
    if OccursAt(s, sub, i) {
      forall k | 0 <= k < |sub| ensures sub[k] in s {
        assert s[i + k] == sub[k];
      }
    }
  }

  /** A text lacking one of the characters of `sub` cannot contain `sub`. */
  lemma MissingCharNotContained(s: string, sub: string, c: char)
    requires c in sub && c !in s
    ensures !Contains(s, sub)
  {
    forall i | 0 <= i <= |s| - |sub|
      ensures !OccursAt(s, sub, i)
    {
      OccurrenceChars(s, sub, i);
    }
  }

  lemma ContainsInPrefix(a: string, b: string, sub: string)
    requires Contains(a, sub)
    ensures Contains(a + b, sub)
  {
    var i :| 0 <= i <= |a| - |sub| && OccursAt(a, sub, i);
    assert (a + b)[i..i + |sub|] == a[i..i + |sub|];
    assert OccursAt(a + b, sub, i);
  }

  lemma ContainsInSuffix(a: string, b: string, sub: string)
    requires Contains(b, sub)
    ensures Contains(a + b, sub)
  {
    var i :| 0 <= i <= |b| - |sub| && OccursAt(b, sub, i);
    assert (a + b)[|a| + i..|a| + i + |sub|] == b[i..i + |sub|];
    assert OccursAt(a + b, sub, |a| + i);
  }

  /** Where an occurrence in `a + b` can lie: inside `a`, across the seam (and then it
      holds the last character of `a`), or inside `b`. */
  lemma OccurrenceInConcat(a: string, b: string, sub: string, i: int)
    ensures OccursAt(a + b, sub, i) && i + |sub| <= |a| ==> OccursAt(a, sub, i)
    ensures OccursAt(a + b, sub, i) && i < |a| < i + |sub| ==> a[|a| - 1] in sub
    ensures OccursAt(a + b, sub, i) && |a| <= i ==> OccursAt(b, sub, i - |a|)
  {
    if OccursAt(a + b, sub, i) {
      if i + |sub| <= |a| {
        assert a[i..i + |sub|] == (a + b)[i..i + |sub|];
      } else if i < |a| {
        assert sub[|a| - 1 - i] == (a + b)[|a| - 1];
      } else {
        assert b[i - |a|..i - |a| + |sub|] == (a + b)[i..i + |sub|];
      }
    }
  }

  /** After a prefix that does not contain `sub` and whose last character is not one of
      `sub`'s, `sub` occurs in the concatenation exactly when it occurs in the suffix:
      no occurrence can straddle the seam. */
  lemma ContainsAfterSeparator(a: string, b: string, sub: string)
    requires a != [] && a[|a| - 1] !in sub && !Contains(a, sub)
    ensures Contains(a + b, sub) <==> Contains(b, sub)
  {
    forall i | 0 <= i <= |a + b| - |sub| && OccursAt(a + b, sub, i)
      ensures 0 <= i - |a| <= |b| - |sub| && OccursAt(b, sub, i - |a|)
    {
      OccurrenceInConcat(a, b, sub, i);
    }
    if Contains(b, sub) {
      ContainsInSuffix(a, b, sub);
    }
  }

  /** `String.prototype.length`: the number of UTF-16 code units, two for a character
      outside the Basic Multilingual Plane and one for any other. */
  function Utf16Length(s: string): (n: nat)
    ensures |s| <= n <= 2 * |s|
    ensures (forall i :: 0 <= i < |s| ==> s[i] as int <= 0xFFFF) ==> n == |s|
  {
    if s == [] then 0
    else (if s[0] as int > 0xFFFF then 2 else 1) + Utf16Length(s[1..])
  }

  /** The digit character for `d`. */
  function DecimalDigit(d: int): (c: char)
    requires 0 <= d < 10
    ensures '0' <= c <= '9' && c as int - '0' as int == d
  {
    ('0' as int + d) as char
  }

  /** The number a string of decimal digits denotes, most significant digit first. */
  function DecimalValue(s: string): nat
    requires forall i :: 0 <= i < |s| ==> '0' <= s[i] <= '9'
  {
    if s == [] then 0
    else DecimalValue(s[..|s| - 1]) * 10 + (s[|s| - 1] as int - '0' as int)
  }

  /** The decimal numeral of a natural number: digits only, no leading zero, and it
      denotes `n`. */
  function NatToDecimal(n: nat): (r: string)
    ensures r != []
    ensures forall i :: 0 <= i < |r| ==> '0' <= r[i] <= '9'
    ensures r[0] == '0' <==> n == 0
    ensures DecimalValue(r) == n
    decreases n
  {
    if n < 10 then
      var r := [DecimalDigit(n)];
      assert r[..0] == [];
      r
    else
      var p := NatToDecimal(n / 10);
      var r := p + [DecimalDigit(n % 10)];
      assert r[..|r| - 1] == p;
      r
  }

  /** How a template literal renders an integer-valued number: a minus sign for a
      negative number, then the numeral of its magnitude. */
  function IntToDecimal(n: int): (r: string)
    ensures r != []
    ensures (r[0] == '-') <==> n < 0
    ensures n < 0 ==> |r| >= 2 && (forall i :: 1 <= i < |r| ==> '0' <= r[i] <= '9') && DecimalValue(r[1..]) == -n
    ensures n >= 0 ==> (forall i :: 0 <= i < |r| ==> '0' <= r[i] <= '9') && DecimalValue(r) == n
  {
    if n < 0 then
      var d := NatToDecimal(-n);
      assert ("-" + d)[1..] == d;
      "-" + d
    else NatToDecimal(n)
  }
}
