/** The Python `str` operations the modelled code relies on (`replace`, `partition`,
    `rpartition`, `split`, `join`, `strip`, `str(int)`), with CPython's semantics stated as
    contracts. Strings are `seq<char>`; there is no encoding or normalisation. */
module PyStr {

  /** `pat` occurs in `s` starting at index `i`. */
  predicate HasAt(s: string, i: nat, pat: string) {
    i + |pat| <= |s| && s[i..i + |pat|] == pat
  }

  /** `pat in s` */
  predicate Occurs(s: string, pat: string) {
    exists i: nat :: i <= |s| && HasAt(s, i, pat)
  }

  /** `s.replace(pat, rep)`: one left-to-right pass replacing the leftmost non-overlapping
      occurrences; text produced by a replacement is never scanned again. */
  function Replace(s: string, pat: string, rep: string): (r: string)
    requires |pat| > 0
    ensures |s| < |pat| ==> r == s
    decreases |s|
  {
    if |s| < |pat| then s
    else if s[..|pat|] == pat then rep + Replace(s[|pat|..], pat, rep)
    else [s[0]] + Replace(s[1..], pat, rep)
  }

  /** A string in which `pat` does not occur is left alone by `replace`. */
  lemma {:induction false} ReplaceAbsent(s: string, pat: string, rep: string)
    requires |pat| > 0 && !Occurs(s, pat)
    ensures Replace(s, pat, rep) == s
    decreases |s|
  {
    if |pat| <= |s| {
      assert !HasAt(s, 0, pat);
      assert !Occurs(s[1..], pat) by {
        forall i: nat | i <= |s[1..]|
          ensures !HasAt(s[1..], i, pat)
        {
          assert !HasAt(s, i + 1, pat);
          if i + |pat| <= |s[1..]| {
            assert s[1..][i..i + |pat|] == s[i + 1..i + 1 + |pat|];
          }
        }
      }
      ReplaceAbsent(s[1..], pat, rep);
      assert s == [s[0]] + s[1..];
    }
  }

  /** Replacing by a string no longer than the pattern (deleting `ssh://` or `https://`, in
      particular) never lengthens the text, and replacing by a longer one never shortens it. */
  lemma {:induction false} ReplaceLength(s: string, pat: string, rep: string)
    requires |pat| > 0
    ensures |rep| <= |pat| ==> |Replace(s, pat, rep)| <= |s|
    ensures |rep| >= |pat| ==> |Replace(s, pat, rep)| >= |s|
    decreases |s|
  {
    if |s| >= |pat| {
      if s[..|pat|] == pat {
        ReplaceLength(s[|pat|..], pat, rep);
      } else {
        ReplaceLength(s[1..], pat, rep);
      }
    }
  }

  /** A leading occurrence is replaced and scanning resumes right after it. */
  lemma ReplaceLeading(pat: string, t: string, rep: string)
    requires |pat| > 0
    ensures Replace(pat + t, pat, rep) == rep + Replace(t, pat, rep)
  {
    assert (pat + t)[..|pat|] == pat;
    assert (pat + t)[|pat|..] == t;
  }

  /** `replace` scans from the left: text before the leftmost occurrence is copied, that
      occurrence becomes `rep`, and the scan resumes right after it. With `ReplaceAbsent`
      this pins the replacement of every non-overlapping occurrence, left to right. */
  lemma ReplaceFirst(s: string, pat: string, rep: string, i: nat)
    requires |pat| > 0 && HasAt(s, i, pat)
    requires forall j: nat :: j < i ==> !HasAt(s, j, pat)
    ensures Replace(s, pat, rep) == s[..i] + rep + Replace(s[i + |pat|..], pat, rep)
  {
    SplitAround(s, i, pat);
    ReplaceAround(s[..i], pat, s[i + |pat|..], rep);
  }

  /** A string is the text before an occurrence, the occurrence and the text after it. */
  lemma SplitAround(s: string, i: nat, pat: string)
    requires HasAt(s, i, pat)
    ensures s == s[..i] + pat + s[i + |pat|..]
  {
    assert s == s[..i] + s[i..i + |pat|] + s[i + |pat|..];
  }

  /** The same scan with the string given as the text before the occurrence, the
      occurrence, and the text after it. */
  lemma {:induction false} ReplaceAround(a: string, pat: string, b: string, rep: string)
    requires |pat| > 0
    requires forall j: nat :: j < |a| ==> !HasAt(a + pat + b, j, pat)
    ensures Replace(a + pat + b, pat, rep) == a + rep + Replace(b, pat, rep)
    decreases |a|
  {
    if |a| == 0 {
      assert a + pat + b == pat + b;
      ReplaceLeading(pat, b, rep);
    } else {
      var s, rest := a + pat + b, a[1..] + pat + b;
      assert s == [a[0]] + rest;
      assert !HasAt(s, 0, pat);
      ReplaceSkip(s, pat, rep);
      assert s[1..] == rest;
      forall j: nat | j < |a[1..]|
        ensures !HasAt(rest, j, pat)
      {
        assert !HasAt(s, j + 1, pat);
        if j + |pat| <= |rest| {
          assert rest[j..j + |pat|] == s[j + 1..j + 1 + |pat|];
        }
      }
      ReplaceAround(a[1..], pat, b, rep);
      assert a == [a[0]] + a[1..];
    }
  }

  /** Without an occurrence at the start, `replace` copies the first character. */
  lemma ReplaceSkip(s: string, pat: string, rep: string)
    requires 0 < |pat| <= |s| && !HasAt(s, 0, pat)
    ensures Replace(s, pat, rep) == [s[0]] + Replace(s[1..], pat, rep)
  {
    assert s[..|pat|] != pat;
  }

  /** A pattern holding a character the string lacks cannot occur in it. */
  lemma AbsentCharBlocks(s: string, pat: string, k: nat)
    requires k < |pat| && pat[k] !in s
    ensures !Occurs(s, pat)
  {
    forall i: nat | i <= |s|
      ensures !HasAt(s, i, pat)
    {
    }
  }

  /** The three parts of `s.partition(sep)` or `s.rpartition(sep)`: `found` tells whether
      the middle part is `sep` or empty. */
  datatype Cut = Cut(before: string, found: bool, after: string)

  /** `s.partition(sep)`: cut at the first `sep`; without one, all of `s` comes before. */
  function Partition(s: string, sep: char): (r: Cut)
    ensures r.found <==> sep in s
    ensures r.found ==> s == r.before + [sep] + r.after && sep !in r.before
    ensures !r.found ==> r.before == s && r.after == ""
  {
    if |s| == 0 then Cut("", false, "")
    else if s[0] == sep then Cut("", true, s[1..])
    else
      var c := Partition(s[1..], sep);
      assert s == [s[0]] + s[1..];
      Cut([s[0]] + c.before, c.found, c.after)
  }

  /** `s.rpartition(sep)`: cut at the last `sep`; without one, all of `s` comes after. */
  function RPartition(s: string, sep: char): (r: Cut)
    ensures r.found <==> sep in s
    ensures r.found ==> s == r.before + [sep] + r.after && sep !in r.after
    ensures !r.found ==> r.before == "" && r.after == s
  {
    if |s| == 0 then Cut("", false, "")
    else if s[|s| - 1] == sep then Cut(s[..|s| - 1], true, "")
    else
      var c := RPartition(s[..|s| - 1], sep);
      assert s == s[..|s| - 1] + [s[|s| - 1]];
      Cut(c.before, c.found, c.after + [s[|s| - 1]])
  }

  /** `partition` cuts exactly at the first separator. */
  lemma {:induction false} PartitionOf(a: string, sep: char, b: string)
    requires sep !in a
    ensures Partition(a + [sep] + b, sep) == Cut(a, true, b)
    decreases |a|
  {
    var s := a + [sep] + b;
    if |a| > 0 {
      assert s[0] == a[0] && s[1..] == a[1..] + [sep] + b;
      PartitionOf(a[1..], sep, b);
      assert a == [a[0]] + a[1..];
    } else {
      assert s[1..] == b;
    }
  }

  /** `rpartition` cuts exactly at the last separator. */
  lemma {:induction false} RPartitionOf(a: string, sep: char, b: string)
    requires sep !in b
    ensures RPartition(a + [sep] + b, sep) == Cut(a, true, b)
    decreases |b|
  {
    var s := a + [sep] + b;
    if |b| > 0 {
      var init, last := b[..|b| - 1], b[|b| - 1];
      assert b == init + [last];
      assert sep !in init && last != sep;
      assert s == (a + [sep] + init) + [last];
      RPartitionOf(a, sep, init);
    } else {
      assert s == a + [sep];
    }
  }

  /** `sep.join(parts)` */
  function Join(parts: seq<string>, sep: char): string {
    if |parts| == 0 then ""
    else if |parts| == 1 then parts[0]
    else parts[0] + [sep] + Join(parts[1..], sep)
  }

  /** `s.split(sep)` with an explicit separator: never empty, empty fields are kept, and
      joining the fields back gives `s`. */
  function Split(s: string, sep: char): (parts: seq<string>)
    ensures |parts| >= 1
    ensures forall i :: 0 <= i < |parts| ==> sep !in parts[i]
    ensures Join(parts, sep) == s
    decreases |s|
  {
    var c := Partition(s, sep);
    if c.found then
      var rest := Split(c.after, sep);
      assert ([c.before] + rest)[1..] == rest;
      [c.before] + rest
    else [s]
  }

  /** `s.split(sep)` has one more field than `s` has separators. */
  lemma {:induction false} SplitCount(s: string, sep: char)
    ensures |Split(s, sep)| == multiset(s)[sep] + 1
    decreases |s|
  {
    var c := Partition(s, sep);
    if c.found {
      SplitCount(c.after, sep);
      assert multiset(s) == multiset(c.before) + multiset{sep} + multiset(c.after);
      assert multiset(c.before)[sep] == 0;
    } else {
      assert multiset(s)[sep] == 0;
    }
  }

  /** Splitting a join of separator-free fields gives the fields back. */
  lemma {:induction false} SplitJoin(parts: seq<string>, sep: char)
    requires |parts| >= 1
    requires forall i :: 0 <= i < |parts| ==> sep !in parts[i]
    ensures Split(Join(parts, sep), sep) == parts
    decreases |parts|
  {
    if |parts| > 1 {
      var rest := parts[1..];
      PartitionOf(parts[0], sep, Join(rest, sep));
      SplitJoin(rest, sep);
      assert parts == [parts[0]] + rest;
    }
  }

  /** A string with exactly one separator splits into the two sides of it. */
  lemma SplitOnlySeparator(a: string, sep: char, b: string)
    requires sep !in a && sep !in b
    ensures Split(a + [sep] + b, sep) == [a, b]
  {
    SplitJoin([a, b], sep);
    assert Join([a, b], sep) == a + [sep] + Join([b], sep);
  }

  /** Python's `str.isspace()` on one character: the characters `str.strip()` removes. */
  predicate IsSpace(c: char) {
    || c == ' ' || '\t' <= c <= '\r' || '\U{001C}' <= c <= '\U{001F}'
    || c == '\U{0085}' || c == '\U{00A0}' || c == '\U{1680}' || '\U{2000}' <= c <= '\U{200A}'
    || c == '\U{2028}' || c == '\U{2029}' || c == '\U{202F}' || c == '\U{205F}' || c == '\U{3000}'
  }

  predicate AllSpace(s: string) {
    forall i :: 0 <= i < |s| ==> IsSpace(s[i])
  }

  /** `s.lstrip()`: the suffix left after dropping the leading whitespace. */
  function LStrip(s: string): (r: string)
    ensures |r| <= |s| && r == s[|s| - |r|..]
    ensures AllSpace(s[..|s| - |r|])
    ensures |r| > 0 ==> !IsSpace(r[0])
  {
    if |s| > 0 && IsSpace(s[0]) then
      var r := LStrip(s[1..]);
      assert s[..|s| - |r|] == [s[0]] + s[1..][..|s[1..]| - |r|];
      r
    else s
  }

  /** `s.rstrip()`: the prefix left after dropping the trailing whitespace. */
  function RStrip(s: string): (r: string)
    ensures |r| <= |s| && r == s[..|r|]
    ensures AllSpace(s[|r|..])
    ensures |r| > 0 ==> !IsSpace(r[|r| - 1])
  {
    if |s| > 0 && IsSpace(s[|s| - 1]) then
      var r := RStrip(s[..|s| - 1]);
      assert s[|r|..] == s[..|s| - 1][|r|..] + [s[|s| - 1]];
      r
    else s
  }

  /** `r` is `s` less `lead` leading and some trailing whitespace characters. */
  predicate TrimmedFrom(s: string, r: string, lead: nat) {
    lead + |r| <= |s| && r == s[lead..lead + |r|]
    && AllSpace(s[..lead]) && AllSpace(s[lead + |r|..])
  }

  /** `s.strip()`: `s` with its leading and trailing whitespace removed. */
  function Strip(s: string): (r: string)
    ensures |r| > 0 ==> !IsSpace(r[0]) && !IsSpace(r[|r| - 1])
    ensures exists lead: nat :: TrimmedFrom(s, r, lead)
  {
    var l := LStrip(s);
    var r := RStrip(l);
    var lead := |s| - |l|;
    assert l == s[lead..];
    assert r == l[..|r|] == s[lead..lead + |r|];
    assert l[|r|..] == s[lead + |r|..];
    assert TrimmedFrom(s, r, lead);
    r
  }

  predicate IsDigit(c: char) {
    '0' <= c <= '9'
  }

  function DigitChar(d: nat): (c: char)
    requires d < 10
    ensures IsDigit(c)
  {
    ('0' as int + d) as char
  }

  /** The number a string of decimal digits denotes. */
  function DecimalValue(s: string): nat
    requires forall i :: 0 <= i < |s| ==> IsDigit(s[i])
  {
    if |s| == 0 then 0
    else 10 * DecimalValue(s[..|s| - 1]) + DigitValue(s[|s| - 1])
  }

  function DigitValue(c: char): nat
    requires IsDigit(c)
  {
    c as int - '0' as int
  }

  /** `str(n)` for a non-negative int: decimal digits, no leading zero, read back as `n`. */
  function NatToDecimal(n: nat): (r: string)
    ensures |r| >= 1 && forall i :: 0 <= i < |r| ==> IsDigit(r[i])
    ensures |r| > 1 ==> r[0] != '0'
    ensures DecimalValue(r) == n
  {
    if n < 10 then [DigitChar(n)]
    else
      var high := NatToDecimal(n / 10);
      var r := high + [DigitChar(n % 10)];
      assert r[..|r| - 1] == high;
      r
  }

  /** `str(i)` / `f"{i}"` for an int. */
  function IntToString(i: int): (r: string)
    ensures forall k :: 0 <= k < |r| ==> IsDigit(r[k]) || r[k] == '-'
  {
    if i < 0 then "-" + NatToDecimal(-i) else NatToDecimal(i)
  }
}
