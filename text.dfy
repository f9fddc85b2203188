/** The JavaScript string operations the quality-message classifier and the ledger reasons use:
    trim, length in UTF-16 code units, includes, split on a one-character separator, and the
    decimal rendering of an integer in a template string. */
module Text {

  /** The characters String.prototype.trim removes: ECMAScript WhiteSpace and LineTerminator. */
  predicate IsTrimmable(c: char)
  {
    var n := c as int;
    || 0x09 <= n <= 0x0D   // tab, line feed, vertical tab, form feed, carriage return
    || n == 0x20 || n == 0xA0 || n == 0x1680
    || 0x2000 <= n <= 0x200A
    || n == 0x2028 || n == 0x2029 || n == 0x202F || n == 0x205F || n == 0x3000
    || n == 0xFEFF
  }

  /** `s` without its leading trimmable characters. */
  function TrimStart(s: string): (r: string)
    ensures |r| <= |s| && r == s[|s| - |r|..]
    ensures forall i :: 0 <= i < |s| - |r| ==> IsTrimmable(s[i])
    ensures r == [] || !IsTrimmable(r[0])
  {
    if s != [] && IsTrimmable(s[0]) then TrimStart(s[1..]) else s
  }

  /** `s` without its trailing trimmable characters. */
  function TrimEnd(s: string): (r: string)
    ensures |r| <= |s| && r == s[..|r|]
    ensures forall i :: |r| <= i < |s| ==> IsTrimmable(s[i])
    ensures r == [] || !IsTrimmable(r[|r| - 1])
  {
    if s != [] && IsTrimmable(s[|s| - 1]) then TrimEnd(s[..|s| - 1]) else s
  }

  /** `r` sits at offset `a` of `s`, and everything of `s` around it is trimmable. */
  ghost predicate TrimmedAt(s: string, r: string, a: int)
  {
    && 0 <= a && a + |r| <= |s| && s[a..a + |r|] == r
    && (forall i :: 0 <= i < a ==> IsTrimmable(s[i]))
    && (forall i :: a + |r| <= i < |s| ==> IsTrimmable(s[i]))
  }

  /** String.prototype.trim: the part of `s` between its leading and trailing trimmable
      characters; it starts and ends with a character that is kept. */
  function Trim(s: string): (r: string)
    ensures exists a :: TrimmedAt(s, r, a)
    ensures r == [] || (!IsTrimmable(r[0]) && !IsTrimmable(r[|r| - 1]))
  {
    TrimEndOfTrimStart(s);
    TrimEnd(TrimStart(s))
  }

  /** Helper for Trim: where trimming both ends leaves its result. */
  lemma TrimEndOfTrimStart(s: string)
    ensures TrimmedAt(s, TrimEnd(TrimStart(s)), |s| - |TrimStart(s)|)
  {
    TrimmedSlices(s, TrimStart(s), TrimEnd(TrimStart(s)));
  }

  /** `r` is a prefix of the suffix `t` of `s`, and what both cuts drop is trimmable. */
  lemma TrimmedSlices(s: string, t: string, r: string)
    requires |t| <= |s| && t == s[|s| - |t|..]
    requires |r| <= |t| && r == t[..|r|]
    requires forall i :: 0 <= i < |s| - |t| ==> IsTrimmable(s[i])
    requires forall i :: |r| <= i < |t| ==> IsTrimmable(t[i])
    ensures TrimmedAt(s, r, |s| - |t|)
  {
    var a := |s| - |t|;
    forall i | a + |r| <= i < |s|
      ensures IsTrimmable(s[i])
    {
      assert s[i] == t[i - a];
    }
  }

  /** Trimming a string with nothing trimmable around it is the identity. */
  lemma TrimUntrimmed(s: string)
    requires s != [] ==> !IsTrimmable(s[0]) && !IsTrimmable(s[|s| - 1])
    ensures Trim(s) == s
  {
  }

  /** Trimming is idempotent. */
  lemma TrimIdempotent(s: string)
    ensures Trim(Trim(s)) == Trim(s)
  {
    TrimUntrimmed(Trim(s));
  }

  /** Whitespace around a string does not change what trim keeps. */
  lemma {:induction false} TrimIgnoresPadding(pre: string, s: string, post: string)
    requires forall i :: 0 <= i < |pre| ==> IsTrimmable(pre[i])
    requires forall i :: 0 <= i < |post| ==> IsTrimmable(post[i])
    ensures Trim(pre + s + post) == Trim(s)
  {
    TrimBothPadding(pre, s, post);
  }

  /** TrimIgnoresPadding, stated on the two trimming steps. */
  lemma {:induction false} TrimBothPadding(pre: string, s: string, post: string)
    requires forall i :: 0 <= i < |pre| ==> IsTrimmable(pre[i])
    requires forall i :: 0 <= i < |post| ==> IsTrimmable(post[i])
    ensures TrimEnd(TrimStart(pre + s + post)) == TrimEnd(TrimStart(s))
  {
    assert pre + s + post == pre + (s + post);
    TrimStartPadding(pre, s + post);
    if TrimStart(s) == [] {
      TrimStartAllTrimmable(s, post);
      assert TrimEnd(TrimStart(s)) == [];
    } else {
      TrimStartSuffix(s, post);
      TrimEndPadding(TrimStart(s), post);
    }
  }

  lemma {:induction false} TrimStartPadding(pre: string, s: string)
    requires forall i :: 0 <= i < |pre| ==> IsTrimmable(pre[i])
    ensures TrimStart(pre + s) == TrimStart(s)
  {
    if pre != [] {
      assert (pre + s)[1..] == pre[1..] + s;
      TrimStartPadding(pre[1..], s);
    } else {
      assert pre + s == s;
    }
  }

  /** If all of `s` is trimmable, trimming the start of s + post leaves only trimmable characters
      of `post`, so trimming the end empties it. */
  lemma {:induction false} TrimStartAllTrimmable(s: string, post: string)
    requires TrimStart(s) == []
    requires forall i :: 0 <= i < |post| ==> IsTrimmable(post[i])
    ensures TrimEnd(TrimStart(s + post)) == []
  {
    assert forall i :: 0 <= i < |s| ==> IsTrimmable(s[i]);
    TrimStartPadding(s, post);
    assert s + post == s + post + [];
    TrimStartPadding(post, []);
    assert post + [] == post;
  }

  lemma {:induction false} TrimStartSuffix(s: string, post: string)
    requires TrimStart(s) != []
    ensures TrimStart(s + post) == TrimStart(s) + post
  {
    if s != [] && IsTrimmable(s[0]) {
      assert (s + post)[1..] == s[1..] + post;
      TrimStartSuffix(s[1..], post);
    }
  }

  lemma {:induction false} TrimEndPadding(s: string, post: string)
    requires forall i :: 0 <= i < |post| ==> IsTrimmable(post[i])
    ensures TrimEnd(s + post) == TrimEnd(s)
  {
    if post != [] {
      assert (s + post)[..|s + post| - 1] == s + post[..|post| - 1];
      TrimEndPadding(s, post[..|post| - 1]);
    } else {
      assert s + post == s;
    }
  }

  /** The number of UTF-16 code units that encode `c`. */
  function CodeUnits(c: char): nat
  {
    if c as int > 0xFFFF then 2 else 1
  }

  /** String.prototype.length: UTF-16 code units, two for a character outside the Basic
      Multilingual Plane. */
  function Utf16Length(s: string): (n: nat)
    ensures |s| <= n <= 2 * |s|
    ensures (forall i :: 0 <= i < |s| ==> s[i] as int <= 0xFFFF) ==> n == |s|
  {
    if s == [] then 0 else CodeUnits(s[0]) + Utf16Length(s[1..])
  }

  /** `pattern` occurs in `s` at offset `i`. */
  ghost predicate OccursAt(s: string, pattern: string, i: int)
  {
    0 <= i && i + |pattern| <= |s| && s[i..i + |pattern|] == pattern
  }

  /** String.prototype.includes for a non-empty pattern. */
  function Contains(s: string, pattern: string): (b: bool)
    requires pattern != []
    ensures b <==> exists i :: OccursAt(s, pattern, i)
    decreases |s|
  {
    if |s| < |pattern| then false
    else if s[..|pattern|] == pattern then
      assert OccursAt(s, pattern, 0);
      true
    else
      var b := Contains(s[1..], pattern);
      if b then
        assert exists i :: OccursAt(s, pattern, i) by {
          var j :| OccursAt(s[1..], pattern, j);
          assert s[1..][j..j + |pattern|] == s[j + 1..j + 1 + |pattern|];
          assert OccursAt(s, pattern, j + 1);
        }
        true
      else
        assert !OccursAt(s, pattern, 0) by {
          assert s[..|pattern|] == s[0..|pattern|];
        }
        forall i | OccursAt(s, pattern, i)
          ensures OccursAt(s[1..], pattern, i - 1)
        {
          assert s[1..][i - 1..i - 1 + |pattern|] == s[i..i + |pattern|];
        }
        false
  }

  /** The number of occurrences of `c` in `s`. */
  function Occurrences(s: string, c: char): nat
  {
    if s == [] then 0 else (if s[0] == c then 1 else 0) + Occurrences(s[1..], c)
  }

  /** String.prototype.split with a one-character separator: the pieces between separators. There
      is one piece more than there are separators, no piece holds the separator, and joining the
      pieces back with the separator gives `s`. */
  function Split(s: string, sep: char): (pieces: seq<string>)
    ensures |pieces| == Occurrences(s, sep) + 1
    ensures forall k, i :: 0 <= k < |pieces| && 0 <= i < |pieces[k]| ==> pieces[k][i] != sep
    ensures Join(pieces, sep) == s
  {
    if s == [] then [[]]
    else
      var rest := Split(s[1..], sep);
      if s[0] == sep then [[]] + rest
      else
        var r := [[s[0]] + rest[0]] + rest[1..];
        assert r[1..] == rest[1..];
        r
  }

  /** Array.prototype.join: the pieces with `sep` between consecutive ones. */
  function Join(pieces: seq<string>, sep: char): string
    requires pieces != []
  {
    if |pieces| == 1 then pieces[0] else pieces[0] + [sep] + Join(pieces[1..], sep)
  }

  /** Splitting a string that holds no separator gives the string itself. */
  lemma SplitWithoutSeparator(s: string, sep: char)
    requires forall i :: 0 <= i < |s| ==> s[i] != sep
    ensures Split(s, sep) == [s]
  {
    assert Occurrences(s, sep) == 0 by { NoOccurrences(s, sep); }
    var pieces := Split(s, sep);
    assert |pieces| == 1;
    assert Join(pieces, sep) == pieces[0];
  }

  lemma {:induction false} NoOccurrences(s: string, c: char)
    requires forall i :: 0 <= i < |s| ==> s[i] != c
    ensures Occurrences(s, c) == 0
  {
    if s != [] {
      NoOccurrences(s[1..], c);
    }
  }

  /** The number a string of decimal digits spells, most significant digit first. */
  function DecimalValue(s: string): nat
    requires forall i :: 0 <= i < |s| ==> '0' <= s[i] <= '9'
  {
    if s == [] then 0 else DecimalValue(s[..|s| - 1]) * 10 + (s[|s| - 1] as int - '0' as int)
  }

  /** The decimal rendering of a natural number: digits only, spelling `n`, with no leading
      zero except for 0 itself. */
  function NatToString(n: nat): (s: string)
    ensures |s| >= 1
    ensures forall i :: 0 <= i < |s| ==> '0' <= s[i] <= '9'
    ensures DecimalValue(s) == n
    ensures s[0] == '0' ==> s == "0"
  {
    if n < 10 then [Digit(n)]
    else
      var front := NatToString(n / 10);
      var s := front + [Digit(n % 10)];
      assert s[..|s| - 1] == front;
      s
  }

  function Digit(d: nat): (c: char)
    requires d < 10
    ensures '0' <= c <= '9' && c as int - '0' as int == d
  {
    ['0', '1', '2', '3', '4', '5', '6', '7', '8', '9'][d]
  }

  /** An integer as a template string renders it: a minus sign exactly for a negative number,
      followed by the decimal digits of its magnitude. */
  function IntToString(n: int): (s: string)
    ensures |s| >= 1
    ensures (s[0] == '-') <==> n < 0
    ensures var digits := if n < 0 then s[1..] else s;
      && digits != []
      && (forall i :: 0 <= i < |digits| ==> '0' <= digits[i] <= '9')
      && DecimalValue(digits) == if n < 0 then -n else n
  {
    if n < 0 then
      var s := "-" + NatToString(-n);
      assert s[1..] == NatToString(-n);
      s
    else NatToString(n)
  }
}
