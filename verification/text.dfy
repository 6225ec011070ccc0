/** String helpers with the meaning of the Python `str` operations the plugin
    relies on: `lower`, `isalnum`, `isspace`/`strip`, the `in` operator,
    `split`, `join`, `split(sep)[0]` and the regular expression `\d+`.
    Case mapping and digit recognition are ASCII only. */
module Text {

  predicate IsDigit(c: char) { '0' <= c <= '9' }

  predicate IsUpper(c: char) { 'A' <= c <= 'Z' }

  /** `str.isalnum` for one character: ASCII letters and digits, and every
      character outside ASCII (this covers the CJK ideographs the plugin's
      memories are written in; full-width punctuation is misclassified). */
  predicate IsAlnum(c: char) {
    'a' <= c <= 'z' || IsUpper(c) || IsDigit(c) || c as int >= 0x80
  }

  /** `str.isspace` for one character: exactly the characters `str.strip()`
      removes. */
  predicate IsSpace(c: char) {
    c == ' ' || '\t' <= c <= '\r' || '\U{1c}' <= c <= '\U{1f}'
    || c == '\U{85}' || c == '\U{a0}' || c == '\U{1680}'
    || '\U{2000}' <= c <= '\U{200a}' || c == '\U{2028}' || c == '\U{2029}'
    || c == '\U{202f}' || c == '\U{205f}' || c == '\U{3000}'
  }

  function ToLower(c: char): (r: char)
    ensures !IsUpper(r)
    ensures IsAlnum(r) == IsAlnum(c)
  {
    if IsUpper(c) then (c as int + 32) as char else c
  }

  /** `str.lower()` */
  function Lower(s: string): (r: string)
    ensures |r| == |s|
    ensures forall i :: 0 <= i < |r| ==> !IsUpper(r[i])
  {
    seq(|s|, i requires 0 <= i < |s| => ToLower(s[i]))
  }

  /** The characters of `s` that are alphanumeric, in order. */
  function KeepAlnum(s: string): (r: string)
    ensures |r| <= |s|
    ensures forall i :: 0 <= i < |r| ==> IsAlnum(r[i])
    ensures forall c :: c in r ==> c in s
  {
    if s == [] then []
    else if IsAlnum(s[0]) then [s[0]] + KeepAlnum(s[1..])
    else KeepAlnum(s[1..])
  }

  /** Filtering distributes over concatenation: nothing is reordered. */
  lemma {:induction false} KeepAlnumConcat(a: string, b: string)
    ensures KeepAlnum(a + b) == KeepAlnum(a) + KeepAlnum(b)
    decreases |a|
  {
    if a != [] {
      assert (a + b)[0] == a[0] && (a + b)[1..] == a[1..] + b;
      KeepAlnumConcat(a[1..], b);
      if IsAlnum(a[0]) {
        assert KeepAlnum(a + b) == [a[0]] + KeepAlnum(a[1..] + b);
      } else {
        assert KeepAlnum(a + b) == KeepAlnum(a[1..] + b);
      }
    } else {
      assert a + b == b;
    }
  }

  /** Every alphanumeric character is kept. */
  lemma {:induction false} KeepAlnumAll(s: string)
    requires forall i :: 0 <= i < |s| ==> IsAlnum(s[i])
    ensures KeepAlnum(s) == s
    decreases |s|
  {
    if s != [] {
      KeepAlnumAll(s[1..]);
    }
  }

  /** Every other character is dropped. */
  lemma {:induction false} KeepAlnumNone(s: string)
    requires forall i :: 0 <= i < |s| ==> !IsAlnum(s[i])
    ensures KeepAlnum(s) == []
    decreases |s|
  {
    if s != [] {
      KeepAlnumNone(s[1..]);
    }
  }

  function TrimLeft(s: string): (r: string)
    ensures |r| <= |s| && r == s[|s| - |r|..]
    ensures r == [] || !IsSpace(r[0])
  {
    if s != [] && IsSpace(s[0]) then TrimLeft(s[1..]) else s
  }

  function TrimRight(s: string): (r: string)
    ensures |r| <= |s| && r == s[..|r|]
    ensures r == [] || !IsSpace(r[|r| - 1])
  {
    if s != [] && IsSpace(s[|s| - 1]) then TrimRight(s[..|s| - 1]) else s
  }

  /** `str.strip()`: a contiguous piece of `s` that neither starts nor ends
      with whitespace. */
  function Strip(s: string): (r: string)
    ensures |r| <= |s|
    ensures r == [] || (!IsSpace(r[0]) && !IsSpace(r[|r| - 1]))
    ensures forall c :: c in r ==> c in s
  {
    var l := TrimLeft(s);
    var r := TrimRight(l);
    assert r != [] ==> r[0] == l[0];
    assert forall c :: c in r ==> c in l;
    r
  }

  /** A string that neither starts nor ends with whitespace is its own strip. */
  lemma StripUnpadded(s: string)
    requires s == [] || (!IsSpace(s[0]) && !IsSpace(s[|s| - 1]))
    ensures Strip(s) == s
  {
  }

  predicate StartsWith(s: string, p: string) {
    |p| <= |s| && s[..|p|] == p
  }

  /** Python's `p in s` on strings. */
  predicate Contains(s: string, p: string)
    decreases |s|
  {
    StartsWith(s, p) || (s != [] && Contains(s[1..], p))
  }

  ghost predicate OccursAt(s: string, p: string, i: int) {
    0 <= i && i + |p| <= |s| && s[i..i + |p|] == p
  }

  /** `Contains` is substring search: `p` occurs at some position of `s`. */
  lemma {:induction false} ContainsIff(s: string, p: string)
    ensures Contains(s, p) <==> exists i :: OccursAt(s, p, i)
    decreases |s|
  {
    if StartsWith(s, p) {
      assert OccursAt(s, p, 0);
    }
    if s == [] {
      if exists i :: OccursAt(s, p, i) {
        var i :| OccursAt(s, p, i);
        assert StartsWith(s, p);
      }
    } else {
      ContainsIff(s[1..], p);
      if Contains(s[1..], p) {
        var i :| OccursAt(s[1..], p, i);
        assert s[1..][i..i + |p|] == s[i + 1..i + 1 + |p|];
        assert OccursAt(s, p, i + 1);
      }
      if exists i :: OccursAt(s, p, i) {
        var i :| OccursAt(s, p, i);
        if i == 0 {
          assert StartsWith(s, p);
        } else {
          assert s[1..][i - 1..i - 1 + |p|] == s[i..i + |p|];
          assert OccursAt(s[1..], p, i - 1);
        }
      }
    }
  }

  /** Python's `s.split(p)[0]`: the text of `s` before the first occurrence
      of `p`, or all of `s` when `p` does not occur. */
  function BeforeFirst(s: string, p: string): (r: string)
    ensures |r| <= |s| && r == s[..|r|]
    ensures forall i :: 0 <= i < |r| ==> !StartsWith(s[i..], p)
    ensures |r| == |s| || StartsWith(s[|r|..], p)
    decreases |s|
  {
    if s == [] || StartsWith(s, p) then []
    else
      var t := BeforeFirst(s[1..], p);
      assert forall i :: 1 <= i <= |t| ==> s[i..] == s[1..][i - 1..];
      [s[0]] + t
  }

  /** When the separator's first character does not occur in `a`, the text
      before the first separator of `a + p + b` is `a`. */
  lemma {:induction false} BeforeFirstOf(a: string, p: string, b: string)
    requires p != []
    requires forall i :: 0 <= i < |a| ==> a[i] != p[0]
    ensures BeforeFirst(a + p + b, p) == a
    decreases |a|
  {
    var s := a + p + b;
    if a == [] {
      assert s == p + b && StartsWith(s, p);
    } else {
      assert s[..|p|][0] == a[0];
      assert s[1..] == a[1..] + p + b;
      BeforeFirstOf(a[1..], p, b);
      assert [a[0]] + a[1..] == a;
    }
  }

  /** Python's `s.split(sep)` for a one-character separator. */
  function Split(s: string, sep: char): (parts: seq<string>)
    ensures |parts| > 0
    ensures forall i, j :: 0 <= i < |parts| && 0 <= j < |parts[i]| ==> parts[i][j] != sep
    ensures forall i, c :: 0 <= i < |parts| && c in parts[i] ==> c in s
    decreases |s|
  {
    if s == [] then [[]]
    else
      var rest := Split(s[1..], sep);
      assert forall c :: c in s[1..] ==> c in s;
      if s[0] == sep then [[]] + rest
      else
        assert forall i :: 1 <= i < |rest| ==> ([[s[0]] + rest[0]] + rest[1..])[i] == rest[i];
        [[s[0]] + rest[0]] + rest[1..]
  }

  /** Python's `sep.join(parts)` for a one-character separator. */
  function Join(parts: seq<string>, sep: char): string
  {
    if |parts| == 0 then []
    else if |parts| == 1 then parts[0]
    else parts[0] + [sep] + Join(parts[1..], sep)
  }

  /** Joining the pieces of a split gives back the original text. */
  lemma {:induction false} JoinSplit(s: string, sep: char)
    ensures Join(Split(s, sep), sep) == s
    decreases |s|
  {
    if s != [] {
      var rest := Split(s[1..], sep);
      JoinSplit(s[1..], sep);
      if s[0] == sep {
        assert Split(s, sep) == [[]] + rest;
      } else {
        assert Split(s, sep) == [[s[0]] + rest[0]] + rest[1..];
        if |rest| > 1 {
          assert Join(rest, sep) == rest[0] + [sep] + Join(rest[1..], sep);
        }
      }
    }
  }

  lemma {:induction false} SplitUnseparated(a: string, sep: char)
    requires forall i :: 0 <= i < |a| ==> a[i] != sep
    ensures Split(a, sep) == [a]
    decreases |a|
  {
    if a != [] {
      SplitUnseparated(a[1..], sep);
      assert [a[0]] + a[1..] == a;
    }
  }

  lemma {:induction false} SplitAfterFirst(a: string, sep: char, rest: string)
    requires forall i :: 0 <= i < |a| ==> a[i] != sep
    ensures Split(a + [sep] + rest, sep) == [a] + Split(rest, sep)
    decreases |a|
  {
    if a == [] {
      assert a + [sep] + rest == [sep] + rest;
    } else {
      SplitAfterFirst(a[1..], sep, rest);
      assert (a + [sep] + rest)[1..] == a[1..] + [sep] + rest;
      assert [a[0]] + a[1..] == a;
    }
  }

  /** Splitting the join of separator-free pieces gives back the pieces. */
  lemma {:induction false} SplitJoin(parts: seq<string>, sep: char)
    requires |parts| > 0
    requires forall i, j :: 0 <= i < |parts| && 0 <= j < |parts[i]| ==> parts[i][j] != sep
    ensures Split(Join(parts, sep), sep) == parts
    decreases |parts|
  {
    if |parts| == 1 {
      SplitUnseparated(parts[0], sep);
    } else {
      SplitJoin(parts[1..], sep);
      SplitAfterFirst(parts[0], sep, Join(parts[1..], sep));
      assert [parts[0]] + parts[1..] == parts;
    }
  }

  /** Length of the run of digits at the start of `s`. */
  function LeadingDigits(s: string): (n: nat)
    ensures n <= |s|
    ensures forall i :: 0 <= i < n ==> IsDigit(s[i])
    ensures n < |s| ==> !IsDigit(s[n])
  {
    if s == [] || !IsDigit(s[0]) then 0 else 1 + LeadingDigits(s[1..])
  }

  /** Python's `int(d)` on a string of decimal digits. */
  function DigitsValue(d: string): nat
    requires forall i :: 0 <= i < |d| ==> IsDigit(d[i])
  {
    if d == [] then 0
    else
      var last := d[|d| - 1];
      assert IsDigit(last);
      10 * DigitsValue(d[..|d| - 1]) + (last as int - '0' as int)
  }

  /** `[int(x) for x in re.findall(r'\d+', s)]`: the value of every maximal
      run of digits, in textual order. */
  function DigitRuns(s: string): seq<nat>
    decreases |s|
  {
    if s == [] then []
    else if !IsDigit(s[0]) then DigitRuns(s[1..])
    else
      var n := LeadingDigits(s);
      [DigitsValue(s[..n])] + DigitRuns(s[n..])
  }

  /** Decimal rendering of a natural number, as Python's `str(n)`. */
  function Decimal(n: nat): (d: string)
    ensures d != []
    ensures forall i :: 0 <= i < |d| ==> IsDigit(d[i])
  {
    var c := ('0' as int + n % 10) as char;
    if n < 10 then [c] else Decimal(n / 10) + [c]
  }

  lemma {:induction false} DecimalValue(n: nat)
    ensures DigitsValue(Decimal(n)) == n
  {
    if n >= 10 {
      DecimalValue(n / 10);
      var d := Decimal(n);
      assert d[..|d| - 1] == Decimal(n / 10);
    }
  }

  lemma {:induction false} LeadingDigitsStop(a: string, t: string)
    requires t != [] && !IsDigit(t[0])
    ensures LeadingDigits(a + t) == LeadingDigits(a)
    decreases |a|
  {
    if a == [] {
      assert a + t == t;
    } else {
      assert (a + t)[1..] == a[1..] + t;
      LeadingDigitsStop(a[1..], t);
    }
  }

  /** A non-digit separates digit runs: the runs of `a + [c] + b` are those
      of `a` followed by those of `b`. */
  lemma {:induction false} DigitRunsSeparated(a: string, c: char, b: string)
    requires !IsDigit(c)
    ensures DigitRuns(a + [c] + b) == DigitRuns(a) + DigitRuns(b)
    decreases |a|
  {
    var s := a + [c] + b;
    if a == [] {
      assert s == [c] + b && s[1..] == b;
    } else if !IsDigit(a[0]) {
      assert s[1..] == a[1..] + [c] + b;
      DigitRunsSeparated(a[1..], c, b);
    } else {
      var n := LeadingDigits(a);
      LeadingDigitsStop(a, [c] + b);
      assert a + [c] + b == a + ([c] + b);
      assert s[..n] == a[..n];
      assert s[n..] == a[n..] + [c] + b;
      DigitRunsSeparated(a[n..], c, b);
    }
  }

  lemma DigitRunsOfDecimal(n: nat)
    ensures DigitRuns(Decimal(n)) == [n]
  {
    var d := Decimal(n);
    assert LeadingDigits(d) == |d|;
    DecimalValue(n);
    assert d[..|d|] == d;
  }

  /** The reply format the reranking prompt asks for: indices in decimal,
      separated by commas ("0,2"). */
  function IdList(ids: seq<nat>): (r: string)
    ensures ids != [] ==> r != []
    ensures forall i :: 0 <= i < |r| ==> IsDigit(r[i]) || r[i] == ','
  {
    if |ids| == 0 then []
    else if |ids| == 1 then Decimal(ids[0])
    else Decimal(ids[0]) + [','] + IdList(ids[1..])
  }

  /** A comma-separated list of indices reads back as exactly those indices. */
  lemma {:induction false} DigitRunsOfIdList(ids: seq<nat>)
    ensures DigitRuns(IdList(ids)) == ids
    decreases |ids|
  {
    if |ids| == 1 {
      DigitRunsOfDecimal(ids[0]);
    } else if |ids| > 1 {
      DigitRunsOfDecimal(ids[0]);
      DigitRunsOfIdList(ids[1..]);
      DigitRunsSeparated(Decimal(ids[0]), ',', IdList(ids[1..]));
      assert [ids[0]] + ids[1..] == ids;
    }
  }

  /** A text lacking the first character of `p` does not contain `p`. */
  lemma {:induction false} MissingFirstChar(s: string, p: string)
    requires p != []
    requires forall i :: 0 <= i < |s| ==> s[i] != p[0]
    ensures !Contains(s, p)
    decreases |s|
  {
    if s != [] {
      MissingFirstChar(s[1..], p);
      if |p| <= |s| {
        assert s[..|p|][0] == s[0] != p[0];
      }
    }
  }

  /** A digit followed by a non-digit is a run of its own. */
  lemma DigitRunsDigitThen(s: string)
    requires |s| >= 2 && IsDigit(s[0]) && !IsDigit(s[1])
    ensures DigitRuns(s) == [s[0] as int - '0' as int] + DigitRuns(s[2..])
  {
    assert LeadingDigits(s[1..]) == 0;
    assert LeadingDigits(s) == 1;
    assert DigitsValue(s[..1]) == s[0] as int - '0' as int by {
      assert s[..1][..0] == [];
    }
    assert s[1..][1..] == s[2..];
  }

  /** A non-digit is skipped. */
  lemma DigitRunsSkip(s: string)
    requires |s| >= 1 && !IsDigit(s[0])
    ensures DigitRuns(s) == DigitRuns(s[1..])
  {
  }

  /** A lone digit is one run. */
  lemma DigitRunsLast(s: string)
    requires |s| == 1 && IsDigit(s[0])
    ensures DigitRuns(s) == [s[0] as int - '0' as int]
  {
    assert LeadingDigits(s) == 1;
    assert s[..1] == s && s[..0] == [] && s[1..] == [];
    assert DigitsValue(s) == s[0] as int - '0' as int;
  }

  /** A text of blanks strips to nothing. */
  lemma {:induction false} BlankStrip(s: string)
    requires forall i :: 0 <= i < |s| ==> IsSpace(s[i])
    ensures TrimLeft(s) == [] && Strip(s) == []
    decreases |s|
  {
    if s != [] {
      BlankStrip(s[1..]);
    }
  }
}
