/** The Python `str` operations the replay and URDF helpers rely on, on
    `seq<char>`.  Case mapping (`lower`, `title`) covers ASCII letters only. */
module PyStrings {
  import opened Wrappers

  /** `any(w in s for w in words)` */
  predicate ContainsAny(s: string, words: seq<string>) {
    exists i :: 0 <= i < |words| && Contains(s, words[i])
  }

  /** `s.startswith(p)` */
  predicate StartsWith(s: string, p: string) {
    |p| <= |s| && s[..|p|] == p
  }

  /** `s.endswith(p)` */
  predicate EndsWith(s: string, p: string) {
    |p| <= |s| && s[|s| - |p|..] == p
  }

  /** `p in s`: p occurs somewhere in s as a contiguous piece. */
  predicate Contains(s: string, p: string)
    decreases |s|
  {
    StartsWith(s, p) || (|s| > 0 && Contains(s[1..], p))
  }

  /** `Contains` agrees with "p starts at some position of s". */
  lemma {:induction false} ContainsIff(s: string, p: string)
    ensures Contains(s, p) <==> exists i :: 0 <= i <= |s| && StartsWith(s[i..], p)
    decreases |s|
  {
    if |s| > 0 {
      ContainsIff(s[1..], p);
      forall i | 0 <= i <= |s| - 1 ensures s[1..][i..] == s[i + 1..] { }
      if StartsWith(s, p) {
        assert s[0..] == s;
      }
      if exists i :: 0 <= i <= |s| && StartsWith(s[i..], p) {
        var i :| 0 <= i <= |s| && StartsWith(s[i..], p);
        if i > 0 {
          assert s[1..][i - 1..] == s[i..];
        } else {
          assert s[0..] == s;
        }
      }
    } else {
      assert s[0..] == s;
    }
  }

  /** p occurring at position i makes `p in s` true. */
  lemma ContainsAt(s: string, p: string, i: nat)
    requires i <= |s| && StartsWith(s[i..], p)
    ensures Contains(s, p)
  {
    ContainsIff(s, p);
  }

  /** Nothing occurs in the empty string except the empty string. */
  lemma NotContainsInEmpty(p: string)
    requires |p| > 0
    ensures !Contains("", p)
  {
  }

  /** `s.find(sep)`: the first position where sep starts, if any. */
  function Find(s: string, sep: string): (r: Option<nat>)
    ensures r.Some? ==> r.value + |sep| <= |s| && s[r.value..r.value + |sep|] == sep
    decreases |s|
  {
    if StartsWith(s, sep) then
      assert s[0..] == s;
      Some(0)
    else if |s| == 0 then
      None
    else
      match Find(s[1..], sep)
      case None => None
      case Some(k) =>
        assert s[k + 1..k + 1 + |sep|] == s[1..][k..k + |sep|];
        Some(k + 1)
  }

  /** `Find` reports the first occurrence, and `None` only when there is
      no occurrence at all. */
  lemma {:induction false} FindFirst(s: string, sep: string)
    ensures Find(s, sep).Some? ==> forall i :: 0 <= i < Find(s, sep).value ==> !StartsWith(s[i..], sep)
    ensures Find(s, sep).None? ==> forall i :: 0 <= i <= |s| ==> !StartsWith(s[i..], sep)
    decreases |s|
  {
    if StartsWith(s, sep) {
    } else if |s| == 0 {
      assert forall i :: 0 <= i <= |s| ==> s[i..] == s;
    } else {
      FindFirst(s[1..], sep);
      assert forall i :: 1 <= i <= |s| ==> s[i..] == s[1..][i - 1..];
      assert s[0..] == s;
    }
  }

  /** `Find` finds something exactly when `sep in s`. */
  lemma FindIffContains(s: string, sep: string)
    ensures Find(s, sep).Some? <==> Contains(s, sep)
  {
    ContainsIff(s, sep);
    FindFirst(s, sep);
    var r := Find(s, sep);
    if r.Some? {
      assert s[r.value..][..|sep|] == sep;
    }
  }

  /** `s.split(sep, 1)` when it yields two parts: the text before the first
      occurrence of sep and the text after it; `None` when sep does not occur
      (Python then yields a one-element list). */
  function SplitFirst(s: string, sep: string): (r: Option<(string, string)>)
    ensures r.Some? <==> Find(s, sep).Some?
    ensures r.Some? ==> s == r.value.0 + sep + r.value.1
    ensures r.Some? ==> |r.value.0| == Find(s, sep).value
  {
    match Find(s, sep)
    case None => None
    case Some(i) =>
      assert s == s[..i] + s[i..i + |sep|] + s[i + |sep|..];
      Some((s[..i], s[i + |sep|..]))
  }

  /** Splitting `u + "::" + j` at its first "::" gives back u and j when u
      holds no ':' at all. */
  lemma {:induction false} SplitJoined(u: string, j: string)
    requires forall k :: 0 <= k < |u| ==> u[k] != ':'
    ensures SplitFirst(u + "::" + j, "::") == Some((u, j))
  {
    var s := u + "::" + j;
    FindJoined(u, j);
    assert s[..|u|] == u;
    assert s[|u| + 2..] == j;
  }

  lemma {:induction false} FindJoined(u: string, j: string)
    requires forall k :: 0 <= k < |u| ==> u[k] != ':'
    ensures Find(u + "::" + j, "::") == Some(|u|)
    decreases |u|
  {
    var s := u + "::" + j;
    if |u| == 0 {
      assert s[..2] == "::";
    } else {
      assert s[1..] == u[1..] + "::" + j;
      assert s[0] == u[0];
      assert !StartsWith(s, "::");
      FindJoined(u[1..], j);
    }
  }

  predicate IsAsciiUpper(c: char) { 'A' <= c <= 'Z' }
  predicate IsAsciiLower(c: char) { 'a' <= c <= 'z' }
  predicate IsAsciiLetter(c: char) { IsAsciiUpper(c) || IsAsciiLower(c) }
  predicate IsDigit(c: char) { '0' <= c <= '9' }

  predicate AllDigits(s: string) {
    forall k :: 0 <= k < |s| ==> IsDigit(s[k])
  }

  function LowerChar(c: char): (r: char)
    ensures !IsAsciiUpper(r)
    ensures IsAsciiLetter(c) <==> IsAsciiLetter(r)
    ensures !IsAsciiUpper(c) ==> r == c
  {
    if IsAsciiUpper(c) then (c as int + 32) as char else c
  }

  function UpperChar(c: char): (r: char)
    ensures !IsAsciiLower(r)
    ensures IsAsciiLetter(c) <==> IsAsciiLetter(r)
    ensures !IsAsciiLower(c) ==> r == c
  {
    if IsAsciiLower(c) then (c as int - 32) as char else c
  }

  /** `s.lower()` */
  function Lower(s: string): (r: string)
    ensures |r| == |s|
    ensures forall i :: 0 <= i < |r| ==> !IsAsciiUpper(r[i])
    ensures forall i :: 0 <= i < |s| && !IsAsciiUpper(s[i]) ==> r[i] == s[i]
  {
    seq(|s|, i requires 0 <= i < |s| => LowerChar(s[i]))
  }

  /** `s.title()`: a letter is upper-cased when it starts a run of letters and
      lower-cased otherwise; every other character is kept. */
  function Title(s: string): (r: string)
    ensures |r| == |s|
    ensures forall i :: 0 <= i < |s| && !IsAsciiLetter(s[i]) ==> r[i] == s[i]
    ensures forall i :: 0 <= i < |s| && IsAsciiLetter(s[i]) ==> IsAsciiLetter(r[i])
  {
    seq(|s|, i requires 0 <= i < |s| =>
      if !IsAsciiLetter(s[i]) then s[i]
      else if i == 0 || !IsAsciiLetter(s[i - 1]) then UpperChar(s[i])
      else LowerChar(s[i]))
  }

  /** `s.replace(pat, repl)`: every non-overlapping occurrence of pat, scanning
      from the left, is replaced by repl. */
  function Replace(s: string, pat: string, repl: string): (r: string)
    decreases |s|
  {
    if |pat| == 0 then
      // Python inserts `repl` before every character and at the end.
      if |s| == 0 then repl else repl + [s[0]] + Replace(s[1..], pat, repl)
    else if |s| < |pat| then s
    else if s[..|pat|] == pat then repl + Replace(s[|pat|..], pat, repl)
    else [s[0]] + Replace(s[1..], pat, repl)
  }

  /** A character that neither s nor repl holds does not appear after the
      replacement. */
  lemma {:induction false} ReplaceKeepsAbsent(s: string, pat: string, repl: string, c: char)
    requires c !in s && c !in repl
    ensures c !in Replace(s, pat, repl)
    decreases |s|
  {
    if |pat| == 0 {
      if |s| > 0 { ReplaceKeepsAbsent(s[1..], pat, repl, c); }
    } else if |s| < |pat| {
    } else if s[..|pat|] == pat {
      ReplaceKeepsAbsent(s[|pat|..], pat, repl, c);
    } else {
      ReplaceKeepsAbsent(s[1..], pat, repl, c);
    }
  }

  /** Replacing a single character c by text without c removes every c. */
  lemma {:induction false} ReplaceRemovesChar(s: string, c: char, repl: string)
    requires c !in repl
    ensures c !in Replace(s, [c], repl)
    decreases |s|
  {
    if |s| >= 1 {
      if s[..1] == [c] {
        ReplaceRemovesChar(s[1..], c, repl);
      } else {
        assert s[0] != c by { assert s[..1] == [s[0]]; }
        ReplaceRemovesChar(s[1..], c, repl);
      }
    }
  }

  /** Characters Python's `str.isspace` accepts (and `strip` removes). */
  predicate IsSpace(c: char) {
    var n := c as int;
    n == 0x20 || (0x09 <= n <= 0x0d) || (0x1c <= n <= 0x1f) || n == 0x85 || n == 0xa0
    || n == 0x1680 || (0x2000 <= n <= 0x200a) || n == 0x2028 || n == 0x2029
    || n == 0x202f || n == 0x205f || n == 0x3000
  }

  function StripLeft(s: string): (r: string)
    ensures |r| <= |s| && r == s[|s| - |r|..]
    ensures r == [] || !IsSpace(r[0])
    decreases |s|
  {
    if |s| > 0 && IsSpace(s[0]) then StripLeft(s[1..]) else s
  }

  function StripRight(s: string): (r: string)
    ensures |r| <= |s| && r == s[..|r|]
    ensures r == [] || !IsSpace(r[|r| - 1])
    decreases |s|
  {
    if |s| > 0 && IsSpace(s[|s| - 1]) then StripRight(s[..|s| - 1]) else s
  }

  /** `s.strip()`: the result is a piece of s with no white space at either end. */
  function Strip(s: string): (r: string)
    ensures |r| <= |s|
    ensures r == [] || (!IsSpace(r[0]) && !IsSpace(r[|r| - 1]))
    ensures forall c :: c in r ==> c in s
  {
    var l := StripLeft(s);
    var r := StripRight(l);
    assert forall c :: c in r ==> c in l;
    r
  }

  // ---------------------------------------------------------------------
  // `int(s)` and `str(n)` on decimal integers

  function DigitValue(c: char): (d: nat)
    requires IsDigit(c)
    ensures d < 10
  {
    (c as int) - ('0' as int)
  }

  function DigitChar(d: nat): (c: char)
    requires d < 10
    ensures IsDigit(c) && DigitValue(c) == d
  {
    (('0' as int) + d) as char
  }

  /** The value of a run of decimal digits, most significant first. */
  function DigitsValue(t: string): nat
    requires AllDigits(t)
    decreases |t|
  {
    if t == [] then 0 else DigitsValue(t[..|t| - 1]) * 10 + DigitValue(t[|t| - 1])
  }

  /** An optional sign followed by at least one digit; anything else is None. */
  function SignedDecimal(t: string): (r: Option<int>)
    ensures r.Some? ==> exists k :: 0 <= k < |t| && IsDigit(t[k])
  {
    var signed := |t| > 0 && (t[0] == '-' || t[0] == '+');
    var body := if signed then t[1..] else t;
    if body == [] || !AllDigits(body) then None
    else
      assert IsDigit(t[|t| - 1]) by { assert body[|body| - 1] == t[|t| - 1]; }
      var n: int := DigitsValue(body);
      Some(if signed && t[0] == '-' then -n else n)
  }

  /** `int(s)` for a `str`: white space around the number is ignored; None
      where Python raises ValueError. */
  function ParseInt(s: string): (r: Option<int>)
    ensures r.Some? ==> exists c :: c in s && IsDigit(c)
  {
    var t := Strip(s);
    var r := SignedDecimal(t);
    if r.Some? then
      var k :| 0 <= k < |t| && IsDigit(t[k]);
      assert t[k] in t;
      r
    else r
  }

  /** `str(n)` for n >= 0: its decimal digits, without leading zeros. */
  function ShowNat(n: nat): (t: string)
    ensures |t| > 0 && AllDigits(t)
    decreases n
  {
    if n < 10 then [DigitChar(n)] else ShowNat(n / 10) + [DigitChar(n % 10)]
  }

  /** `str(n)`: a minus sign before the digits of a negative number. */
  function ShowInt(n: int): (t: string)
    ensures |t| > 0 && IsDigit(t[|t| - 1])
  {
    if n < 0 then "-" + ShowNat(-n) else ShowNat(n)
  }

  lemma {:induction false} ShowNatValue(n: nat)
    ensures DigitsValue(ShowNat(n)) == n
    decreases n
  {
    if n >= 10 {
      ShowNatValue(n / 10);
      var t := ShowNat(n);
      assert t[..|t| - 1] == ShowNat(n / 10);
    }
  }

  /** `int(str(n)) == n` for every integer. */
  lemma ParseShowInt(n: int)
    ensures ParseInt(ShowInt(n)) == Some(n)
  {
    var t := ShowInt(n);
    var digits := if n < 0 then ShowNat(-n) else ShowNat(n);
    assert !IsSpace(t[0]) && !IsSpace(t[|t| - 1]);
    assert StripLeft(t) == t;
    assert StripRight(t) == t;
    ShowNatValue(if n < 0 then -n else n);
    if n < 0 {
      assert t[1..] == digits;
    }
  }

  /** The first occurrence of a one-character separator c in u + [c] + j is
      the one after u when u holds no c. */
  lemma {:induction false} FindChar(u: string, c: char, j: string)
    requires c !in u
    ensures Find(u + [c] + j, [c]) == Some(|u|)
    decreases |u|
  {
    var s := u + [c] + j;
    if |u| == 0 {
      assert s[..1] == [c];
    } else {
      assert s[1..] == u[1..] + [c] + j;
      assert s[..1] == [u[0]];
      FindChar(u[1..], c, j);
    }
  }

  /** `(u + c + j).split(c, 1)` gives back u and j when u holds no c. */
  lemma SplitOnChar(u: string, c: char, j: string)
    requires c !in u
    ensures SplitFirst(u + [c] + j, [c]) == Some((u, j))
  {
    var s := u + [c] + j;
    FindChar(u, c, j);
    assert s[..|u|] == u;
    assert s[|u| + 1..] == j;
  }

  /** A piece of an occurring string occurs too. */
  lemma ContainsPiece(s: string, q: string, p: string, off: nat)
    requires Contains(s, q) && off <= |q| && StartsWith(q[off..], p)
    ensures Contains(s, p)
  {
    ContainsIff(s, q);
    var i :| 0 <= i <= |s| && StartsWith(s[i..], q);
    assert i + |q| <= |s| && s[i..][..|q|] == q;
    forall k | 0 <= k < |p|
      ensures s[i + off + k] == p[k]
    {
      assert q[off..][..|p|][k] == p[k];
      assert q[off + k] == s[i..][..|q|][off + k];
    }
    assert s[i + off..][..|p|] == p;
    ContainsAt(s, p, i + off);
  }

  /** Replacing a pattern that does not occur changes nothing. */
  lemma {:induction false} ReplaceAbsent(s: string, pat: string, repl: string)
    requires |pat| > 0 && !Contains(s, pat)
    ensures Replace(s, pat, repl) == s
    decreases |s|
  {
    if |s| >= |pat| {
      ReplaceAbsent(s[1..], pat, repl);
    }
  }

  /** After `s.replace("To", "→")`, the first character is an 'o' exactly
      when s starts with one. */
  lemma ReplaceToHead(s: string)
    requires |s| > 0
    ensures |Replace(s, "To", "\U{2192}")| > 0
    ensures Replace(s, "To", "\U{2192}")[0] == 'o' <==> s[0] == 'o'
  {
    if |s| >= 2 && s[..2] == "To" {
      assert s[0] == 'T';
    }
  }

  /** `s.replace("To", "→")` leaves no "To" behind, since the arrow cannot
      start a new one or end one. */
  lemma {:induction false} ReplaceToRemovesTo(s: string)
    ensures !Contains(Replace(s, "To", "\U{2192}"), "To")
    decreases |s|
  {
    var r := Replace(s, "To", "\U{2192}");
    if |s| < 2 {
      assert r == s;
      if |s| == 1 {
        assert !StartsWith(s, "To");
        assert !Contains(s[1..], "To");
      }
    } else if s[..2] == "To" {
      ReplaceToRemovesTo(s[2..]);
      assert r == "\U{2192}" + Replace(s[2..], "To", "\U{2192}");
      assert r[1..] == Replace(s[2..], "To", "\U{2192}");
      assert r[0] == '\U{2192}';
      assert |r| >= 2 ==> r[..2][0] == r[0];
    } else {
      ReplaceToRemovesTo(s[1..]);
      var t := Replace(s[1..], "To", "\U{2192}");
      assert r == [s[0]] + t;
      assert r[1..] == t;
      ReplaceToHead(s[1..]);
      assert r[..2] == [s[0], t[0]];
      assert s[..2] == [s[0], s[1]];
    }
  }
}
