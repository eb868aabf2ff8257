/** Character-sequence helpers shared by the line parsers of 16.rs and 12.rs: Rust's
    `str::split` with a non-empty string pattern, `trim`, `trim_start_matches`,
    `trim_end_matches`, `replace(c, "")`, and `str::parse::<usize>` on decimal digits. */
module Text {
  import opened Options

  type String = seq<char>

  // ---------------------------------------------------------------------------
  // Splitting on a separator

  /** `sep` occurs in `s` starting at index `j`. */
  predicate OccursAt(s: String, sep: String, j: nat)
  {
    j + |sep| <= |s| && s[j..j + |sep|] == sep
  }

  /** `s` contains no occurrence of the character `c`. */
  predicate Avoids(s: String, c: char)
  {
    forall k :: 0 <= k < |s| ==> s[k] != c
  }

  lemma OccursAtTail(s: String, sep: String, j: nat)
    requires |s| > 0
    ensures OccursAt(s, sep, j + 1) <==> OccursAt(s[1..], sep, j)
  {
    if j + 1 + |sep| <= |s| {
      assert s[1..][j..j + |sep|] == s[j + 1..j + 1 + |sep|];
    }
  }

  /** The leftmost occurrence of `sep` in `s`, the match `str::split` finds first. */
  function FindFirst(s: String, sep: String): (r: Option<nat>)
    requires |sep| > 0
    ensures r.Some? ==> OccursAt(s, sep, r.value)
    ensures r.Some? ==> forall j: nat :: j < r.value ==> !OccursAt(s, sep, j)
    ensures r.None? ==> forall j: nat :: !OccursAt(s, sep, j)
    decreases |s|
  {
    if |s| < |sep| then None
    else if s[..|sep|] == sep then Some(0)
    else
      var rest := FindFirst(s[1..], sep);
      assert !OccursAt(s, sep, 0);
      assert forall j: nat :: 1 <= j ==> (OccursAt(s, sep, j) <==> OccursAt(s[1..], sep, j - 1)) by {
        forall j: nat | 1 <= j ensures OccursAt(s, sep, j) <==> OccursAt(s[1..], sep, j - 1) {
          OccursAtTail(s, sep, j - 1);
        }
      }
      match rest
      case None => None
      case Some(i) => Some(i + 1)
  }

  /** Rust's `s.split(sep)`: the pieces between the successive leftmost
      non-overlapping occurrences of `sep`; always at least one piece. */
  function Split(s: String, sep: String): (parts: seq<String>)
    requires |sep| > 0
    ensures |parts| >= 1
    decreases |s|
  {
    match FindFirst(s, sep)
    case None => [s]
    case Some(i) => [s[..i]] + Split(s[i + |sep|..], sep)
  }

  /** The inverse of `Split`: the pieces glued back together with `sep`. */
  function Join(parts: seq<String>, sep: String): String
    requires |parts| >= 1
  {
    if |parts| == 1 then parts[0] else parts[0] + sep + Join(parts[1..], sep)
  }

  /** Splitting loses nothing: joining the pieces gives the original text back. */
  lemma {:induction false} JoinSplit(s: String, sep: String)
    requires |sep| > 0
    ensures Join(Split(s, sep), sep) == s
    decreases |s|
  {
    var f := FindFirst(s, sep);
    if f.Some? {
      var i := f.value;
      var rest := s[i + |sep|..];
      var tail := Split(rest, sep);
      JoinSplit(rest, sep);
      var parts := [s[..i]] + tail;
      assert Split(s, sep) == parts;
      assert |parts| > 1 && parts[0] == s[..i] && parts[1..] == tail;
      assert Join(parts, sep) == s[..i] + sep + Join(tail, sep);
      assert s[i..i + |sep|] == sep;
      assert s == s[..i] + s[i..i + |sep|] + rest;
    }
  }

  /** A text none of whose characters starts the separator is one piece. */
  lemma SplitAvoiding(s: String, sep: String)
    requires |sep| > 0 && Avoids(s, sep[0])
    ensures Split(s, sep) == [s]
  {
    forall j: nat ensures !OccursAt(s, sep, j) {
      if j + |sep| <= |s| {
        assert s[j..j + |sep|][0] == s[j];
      }
    }
  }

  /** The first match of the separator is right after a piece avoiding its first character. */
  lemma SplitAfter(a: String, sep: String, rest: String)
    requires |sep| > 0 && Avoids(a, sep[0])
    ensures Split(a + sep + rest, sep) == [a] + Split(rest, sep)
  {
    var s := a + sep + rest;
    assert s[|a|..|a| + |sep|] == sep;
    assert OccursAt(s, sep, |a|);
    forall j: nat | j < |a| ensures !OccursAt(s, sep, j) {
      assert s[j..j + |sep|][0] == s[j] == a[j];
    }
    assert FindFirst(s, sep) == Some(|a|);
    assert s[..|a|] == a;
    assert s[|a| + |sep|..] == rest;
  }

  /** Splitting a joined list whose pieces avoid the separator's first character gives the list back. */
  lemma {:induction false} SplitJoin(parts: seq<String>, sep: String)
    requires |sep| > 0 && |parts| >= 1
    requires forall k :: 0 <= k < |parts| ==> Avoids(parts[k], sep[0])
    ensures Split(Join(parts, sep), sep) == parts
  {
    if |parts| == 1 {
      SplitAvoiding(parts[0], sep);
    } else {
      SplitJoin(parts[1..], sep);
      SplitAfter(parts[0], sep, Join(parts[1..], sep));
    }
  }

  // ---------------------------------------------------------------------------
  // Trimming

  /** Rust's `char::is_whitespace`: the characters with the Unicode `White_Space` property. */
  predicate IsWhitespace(c: char)
  {
    ('\U{0009}' <= c <= '\U{000D}') || c == ' ' || c == '\U{0085}' || c == '\U{00A0}' || c == '\U{1680}'
    || ('\U{2000}' <= c <= '\U{200A}') || c == '\U{2028}' || c == '\U{2029}' || c == '\U{202F}'
    || c == '\U{205F}' || c == '\U{3000}'
  }

  function TrimStart(s: String): (r: String)
    ensures |r| <= |s| && r == s[|s| - |r|..]
    ensures r == [] || !IsWhitespace(r[0])
    ensures forall k :: 0 <= k < |s| - |r| ==> IsWhitespace(s[k])
  {
    if s != [] && IsWhitespace(s[0]) then TrimStart(s[1..]) else s
  }

  function TrimEnd(s: String): (r: String)
    ensures |r| <= |s| && r == s[..|r|]
    ensures r == [] || !IsWhitespace(r[|r| - 1])
    ensures forall k :: |r| <= k < |s| ==> IsWhitespace(s[k])
  {
    if s != [] && IsWhitespace(s[|s| - 1]) then TrimEnd(s[..|s| - 1]) else s
  }

  /** Rust's `str::trim`. */
  function Trim(s: String): (r: String)
    ensures |r| <= |s|
    ensures r == [] || (!IsWhitespace(r[0]) && !IsWhitespace(r[|r| - 1]))
    ensures exists i :: TrimmedAt(s, i, r)
  {
    var t := TrimStart(s);
    var r := TrimEnd(t);
    SliceOfSuffix(s, t, r);
    r
  }

  /** A prefix `r` of a suffix `t` of `s`, with whitespace before `t` in `s` and after `r` in `t`. */
  lemma SliceOfSuffix(s: String, t: String, r: String)
    requires |t| <= |s| && t == s[|s| - |t|..] && forall k :: 0 <= k < |s| - |t| ==> IsWhitespace(s[k])
    requires |r| <= |t| && r == t[..|r|] && forall k :: |r| <= k < |t| ==> IsWhitespace(t[k])
    ensures TrimmedAt(s, |s| - |t|, r)
  {
    var i := |s| - |t|;
    forall k | i + |r| <= k < |s| ensures IsWhitespace(s[k]) {
      assert s[k] == t[k - i];
    }
  }

  /** `r` is the slice of `s` from index `i`, and every character of `s` outside it is whitespace. */
  predicate TrimmedAt(s: String, i: int, r: String)
  {
    0 <= i <= |s| - |r| && r == s[i..i + |r|]
    && (forall k :: 0 <= k < i ==> IsWhitespace(s[k])) && (forall k :: i + |r| <= k < |s| ==> IsWhitespace(s[k]))
  }

  lemma TrimClean(s: String)
    requires s == [] || (!IsWhitespace(s[0]) && !IsWhitespace(s[|s| - 1]))
    ensures Trim(s) == s
  {
  }

  /** Rust's `s.trim_start_matches(p)`: every leading repetition of `p` removed. */
  function TrimStartMatches(s: String, p: String): (r: String)
    requires |p| > 0
    ensures |r| <= |s| && r == s[|s| - |r|..]
    ensures !(|p| <= |r| && r[..|p|] == p)
    ensures exists m: nat :: s[..|s| - |r|] == Repeat(p, m)
    decreases |s|
  {
    if |p| <= |s| && s[..|p|] == p then
      var rest := s[|p|..];
      var r := TrimStartMatches(rest, p);
      var m: nat :| rest[..|rest| - |r|] == Repeat(p, m);
      OneMoreCopy(s, p, r, m);
      r
    else
      assert s[..0] == Repeat(p, 0);
      s
  }

  /** A suffix `r` of `s` after `p` and `m` copies of `p` is a suffix of `s` after `m + 1` copies. */
  lemma OneMoreCopy(s: String, p: String, r: String, m: nat)
    requires |p| <= |s| && s[..|p|] == p
    requires |r| <= |s| - |p| && r == s[|p|..][|s| - |p| - |r|..] && s[|p|..][..|s| - |p| - |r|] == Repeat(p, m)
    ensures r == s[|s| - |r|..] && s[..|s| - |r|] == Repeat(p, m + 1)
  {
    assert s[..|s| - |r|] == s[..|p|] + s[|p|..][..|s| - |p| - |r|];
  }

  /** `m` copies of `p` one after the other. */
  function Repeat(p: String, m: nat): (r: String)
    ensures |r| == m * |p|
  {
    if m == 0 then [] else p + Repeat(p, m - 1)
  }

  lemma TrimStartMatchesNone(s: String, p: String)
    requires |p| > 0 && |s| > 0 && s[0] != p[0]
    ensures TrimStartMatches(s, p) == s
  {
    if |p| <= |s| {
      assert s[..|p|][0] == s[0];
    }
  }

  lemma TrimStartMatchesOnce(p: String, s: String)
    requires |p| > 0 && |s| > 0 && s[0] != p[0]
    ensures TrimStartMatches(p + s, p) == s
  {
    assert (p + s)[..|p|] == p;
    assert (p + s)[|p|..] == s;
    TrimStartMatchesNone(s, p);
  }

  /** Rust's `s.trim_end_matches(c)`: every trailing `c` removed. */
  function TrimEndMatches(s: String, c: char): (r: String)
    ensures |r| <= |s| && r == s[..|r|]
    ensures r == [] || r[|r| - 1] != c
    ensures forall k :: |r| <= k < |s| ==> s[k] == c
  {
    if s != [] && s[|s| - 1] == c then TrimEndMatches(s[..|s| - 1], c) else s
  }

  lemma TrimEndMatchesOnce(s: String, c: char)
    requires |s| > 0 && s[|s| - 1] != c
    ensures TrimEndMatches(s + [c], c) == s
    ensures TrimEndMatches(s, c) == s
  {
    assert (s + [c])[..|s|] == s;
  }

  /** Rust's `s.replace(c, "")` for a one-character pattern: every `c` deleted, the rest kept in order. */
  function Remove(s: String, c: char): (r: String)
    ensures Avoids(r, c)
    ensures Avoids(s, c) ==> r == s
  {
    if s == [] then [] else (if s[0] == c then [] else [s[0]]) + Remove(s[1..], c)
  }

  /** `Remove` deletes the occurrences of `c` and no other character. */
  lemma {:induction false} RemoveKeepsOthers(s: String, c: char)
    ensures multiset(Remove(s, c)) == multiset(s)[c := 0]
  {
    if s != [] {
      RemoveKeepsOthers(s[1..], c);
      assert s == [s[0]] + s[1..];
      assert multiset(s) == multiset([s[0]]) + multiset(s[1..]);
    }
  }

  /** `Remove` keeps the order of the characters it keeps: it distributes over concatenation. */
  lemma {:induction false} RemoveAppend(a: String, b: String, c: char)
    ensures Remove(a + b, c) == Remove(a, c) + Remove(b, c)
  {
    if a != [] {
      var h := if a[0] == c then [] else [a[0]];
      assert (a + b)[0] == a[0];
      assert (a + b)[1..] == a[1..] + b;
      assert Remove(a + b, c) == h + Remove(a[1..] + b, c);
      assert Remove(a, c) == h + Remove(a[1..], c);
      RemoveAppend(a[1..], b, c);
    } else {
      assert a + b == b;
    }
  }

  // ---------------------------------------------------------------------------
  // Decimal numerals

  predicate IsDigit(c: char) { '0' <= c <= '9' }

  predicate AllDigits(s: String) { forall k :: 0 <= k < |s| ==> IsDigit(s[k]) }

  function DigitValue(c: char): (d: nat)
    requires IsDigit(c)
    ensures d < 10
  {
    c as int - '0' as int
  }

  function DigitChar(d: nat): (c: char)
    requires d < 10
    ensures IsDigit(c) && DigitValue(c) == d
  {
    ('0' as int + d) as char
  }

  /** The number a string of decimal digits denotes, most significant digit first. */
  function DigitsValue(ds: String): nat
    requires AllDigits(ds)
  {
    if ds == [] then 0 else DigitsValue(ds[..|ds| - 1]) * 10 + DigitValue(ds[|ds| - 1])
  }

  /** Rust's `s.parse::<usize>()`: an optional `+`, then one or more decimal digits. */
  function ParseNat(s: String): (r: Option<nat>)
    ensures r.Some? <==> (var ds := if |s| > 0 && s[0] == '+' then s[1..] else s; |ds| > 0 && AllDigits(ds))
  {
    var ds := if |s| > 0 && s[0] == '+' then s[1..] else s;
    if |ds| > 0 && AllDigits(ds) then Some(DigitsValue(ds)) else None
  }

  /** Rust's `n.to_string()`: the shortest decimal numeral of `n`. */
  function ShowNat(n: nat): (s: String)
    ensures |s| > 0 && AllDigits(s)
    ensures s[0] == '0' ==> n == 0 && s == "0"
  {
    if n < 10 then [DigitChar(n)] else ShowNat(n / 10) + [DigitChar(n % 10)]
  }

  lemma {:induction false} DigitsValueShowNat(n: nat)
    ensures DigitsValue(ShowNat(n)) == n
  {
    if n >= 10 {
      DigitsValueShowNat(n / 10);
      var s := ShowNat(n);
      assert s[..|s| - 1] == ShowNat(n / 10);
    }
  }

  /** Parsing a printed number gives the number back. */
  lemma ParseShowNat(n: nat)
    ensures ParseNat(ShowNat(n)) == Some(n)
  {
    DigitsValueShowNat(n);
  }
}
