/**
 * String operations shared by the Python server and the JavaScript views:
 * whitespace trimming (Python `str.strip()` and JavaScript `String.prototype.trim()`
 * differ only in which characters count as whitespace), substring search,
 * Python's `str.split(sep)` and ASCII lowercasing.
 */
module Text {
  import opened Wrappers

  /** The characters Python's `str.isspace()` accepts, which `str.strip()` removes. */
  const PyWhitespace: set<char> := {
    '\t', '\n', '\U{000B}', '\U{000C}', '\r',
    '\U{001C}', '\U{001D}', '\U{001E}', '\U{001F}', ' ',
    '\U{0085}', '\U{00A0}', '\U{1680}',
    '\U{2000}', '\U{2001}', '\U{2002}', '\U{2003}', '\U{2004}', '\U{2005}',
    '\U{2006}', '\U{2007}', '\U{2008}', '\U{2009}', '\U{200A}',
    '\U{2028}', '\U{2029}', '\U{202F}', '\U{205F}', '\U{3000}'
  }

  /** The WhiteSpace and LineTerminator characters JavaScript's `trim()` removes. */
  const JsWhitespace: set<char> := {
    '\t', '\n', '\U{000B}', '\U{000C}', '\r', ' ',
    '\U{00A0}', '\U{1680}',
    '\U{2000}', '\U{2001}', '\U{2002}', '\U{2003}', '\U{2004}', '\U{2005}',
    '\U{2006}', '\U{2007}', '\U{2008}', '\U{2009}', '\U{200A}',
    '\U{2028}', '\U{2029}', '\U{202F}', '\U{205F}', '\U{3000}', '\U{FEFF}'
  }

  /** True when every character of `s` is in `ws` (vacuously so for ""). */
  predicate AllIn(s: string, ws: set<char>) {
    forall i :: 0 <= i < |s| ==> s[i] in ws
  }

  /** True when `s` neither starts nor ends with a character of `ws`. */
  predicate IsTrimmed(s: string, ws: set<char>) {
    s == [] || (s[0] !in ws && s[|s| - 1] !in ws)
  }

  /** The number of leading characters of `s` that are in `ws`. */
  function LeadingCount(s: string, ws: set<char>): (n: nat)
    ensures n <= |s|
    ensures forall i :: 0 <= i < n ==> s[i] in ws
    ensures n == |s| || s[n] !in ws
  {
    if |s| > 0 && s[0] in ws then 1 + LeadingCount(s[1..], ws) else 0
  }

  /** The number of trailing characters of `s` that are in `ws`. */
  function TrailingCount(s: string, ws: set<char>): (n: nat)
    ensures n <= |s|
    ensures forall i :: |s| - n <= i < |s| ==> s[i] in ws
    ensures n == |s| || s[|s| - n - 1] !in ws
  {
    if |s| > 0 && s[|s| - 1] in ws then 1 + TrailingCount(s[..|s| - 1], ws) else 0
  }

  /** `s` without leading and trailing characters from `ws`. */
  function Trim(s: string, ws: set<char>): (r: string)
    ensures IsTrimmed(r, ws)
    ensures r == [] <==> AllIn(s, ws)
    ensures |r| <= |s|
    ensures exists lo, hi :: 0 <= lo <= hi <= |s| && r == s[lo..hi] && AllIn(s[..lo], ws) && AllIn(s[hi..], ws)
  {
    var lo := LeadingCount(s, ws);
    var hi := |s| - TrailingCount(s[lo..], ws);
    assert forall i :: hi <= i < |s| ==> s[i] == s[lo..][i - lo];
    s[lo..hi]
  }

  /** The contract of `Trim` fixes its result: a trimmed slice with only `ws` on either
    * side of it is what `Trim` returns. */
  lemma TrimUnique(s: string, ws: set<char>, lo: int, hi: int)
    requires 0 <= lo <= hi <= |s| && IsTrimmed(s[lo..hi], ws)
    requires AllIn(s[..lo], ws) && AllIn(s[hi..], ws)
    ensures Trim(s, ws) == s[lo..hi]
  {
    if lo == hi {
      assert AllIn(s, ws) by {
        forall i | 0 <= i < |s| ensures s[i] in ws {
          if i < lo { assert s[i] == s[..lo][i]; } else { assert s[i] == s[hi..][i - hi]; }
        }
      }
    } else {
      assert s[lo] == s[lo..hi][0] && s[hi - 1] == s[lo..hi][hi - lo - 1];
      forall i | 0 <= i < lo ensures s[i] in ws { assert s[i] == s[..lo][i]; }
      var n := LeadingCount(s, ws);
      assert n == lo;
      var tail := s[lo..];
      forall i | hi - lo <= i < |tail| ensures tail[i] in ws { assert tail[i] == s[hi..][i - (hi - lo)]; }
      assert tail[hi - lo - 1] == s[hi - 1];
      var m := TrailingCount(tail, ws);
      assert m == |s| - hi;
    }
  }

  /** What `Trim` keeps is one contiguous slice of its input. */
  lemma TrimIsSlice(s: string, ws: set<char>)
    ensures var lo := LeadingCount(s, ws);
            lo + |Trim(s, ws)| <= |s| && Trim(s, ws) == s[lo..lo + |Trim(s, ws)|]
  {
  }

  /** Trimming is idempotent. */
  lemma TrimIdempotent(s: string, ws: set<char>)
    ensures Trim(Trim(s, ws), ws) == Trim(s, ws)
  {
    var r := Trim(s, ws);
    assert LeadingCount(r, ws) == 0;
    assert TrailingCount(r, ws) == 0;
    assert r[0..][..|r|] == r;
  }

  /** `sub` occurs in `s` starting at index `i`. */
  predicate OccursAt(s: string, sub: string, i: int) {
    0 <= i && i + |sub| <= |s| && s[i..i + |sub|] == sub
  }

  /** Index of the first occurrence of `sub` in `s` (Python's `str.find`, with None for -1). */
  function IndexOf(s: string, sub: string): (r: Option<nat>)
    ensures r.Some? ==> OccursAt(s, sub, r.value)
    ensures r.Some? ==> forall j :: 0 <= j < r.value ==> !OccursAt(s, sub, j)
    ensures r.None? ==> forall j :: !OccursAt(s, sub, j)
    decreases |s|
  {
    if |s| < |sub| then None
    else if s[..|sub|] == sub then Some(0)
    else
      var rest := IndexOf(s[1..], sub);
      OccursShift(s, sub);
      match rest
      case None => None
      case Some(k) => Some(k + 1)
  }

  /** Occurrences in `s[1..]` are the occurrences in `s` after index 0, shifted by one. */
  lemma OccursShift(s: string, sub: string)
    requires |s| > 0
    ensures forall j :: 1 <= j ==> (OccursAt(s, sub, j) <==> OccursAt(s[1..], sub, j - 1))
  {
    forall j | 1 <= j ensures OccursAt(s, sub, j) <==> OccursAt(s[1..], sub, j - 1) {
      if j + |sub| <= |s| {
        var a, b := s[j..j + |sub|], s[1..][j - 1..j - 1 + |sub|];
        assert |a| == |b| && forall i :: 0 <= i < |a| ==> a[i] == b[i];
      }
    }
  }

  /** Python's `sub in s`. */
  predicate Contains(s: string, sub: string) {
    IndexOf(s, sub).Some?
  }

  /** A string in which `sub` does not occur has no slice in which it occurs. */
  lemma NotContainsSlice(s: string, sub: string, lo: int, hi: int)
    requires 0 <= lo <= hi <= |s|
    requires !Contains(s, sub)
    ensures !Contains(s[lo..hi], sub)
  {
    forall j ensures !OccursAt(s[lo..hi], sub, j) {
      if OccursAt(s[lo..hi], sub, j) {
        OccursInSlice(s, sub, lo, hi, j);
      }
    }
  }

  /** An occurrence inside a slice is an occurrence in the whole string. */
  lemma OccursInSlice(s: string, sub: string, lo: int, hi: int, j: int)
    requires 0 <= lo <= hi <= |s|
    requires OccursAt(s[lo..hi], sub, j)
    ensures OccursAt(s, sub, lo + j)
  {
    var a, b := s[lo..hi][j..j + |sub|], s[lo + j..lo + j + |sub|];
    assert |a| == |b| && forall i :: 0 <= i < |a| ==> a[i] == b[i];
  }

  /** Stripping never creates an occurrence of `sub`. */
  lemma TrimKeepsAbsence(s: string, sub: string, ws: set<char>)
    requires !Contains(s, sub)
    ensures !Contains(Trim(s, ws), sub)
  {
    var lo := LeadingCount(s, ws);
    TrimIsSlice(s, ws);
    NotContainsSlice(s, sub, lo, lo + |Trim(s, ws)|);
  }

  /** `pieces` joined with `sep` between neighbours (Python's `sep.join(pieces)`). */
  function Join(pieces: seq<string>, sep: string): string
    requires |pieces| >= 1
  {
    if |pieces| == 1 then pieces[0] else pieces[0] + sep + Join(pieces[1..], sep)
  }

  /** Python's `s.split(sep)` for a non-empty separator. */
  function Split(s: string, sep: string): (r: seq<string>)
    requires |sep| > 0
    ensures |r| >= 1
    ensures |r| >= 2 <==> Contains(s, sep)
    ensures forall i :: 0 <= i < |r| ==> !Contains(r[i], sep)
    ensures |r[0]| <= |s| && r[0] == s[..|r[0]|]
    ensures Join(r, sep) == s
    decreases |s|
  {
    match IndexOf(s, sep)
    case None => [s]
    case Some(k) =>
      var head := s[..k];
      var rest := Split(s[k + |sep|..], sep);
      assert !Contains(head, sep) by {
        if Contains(head, sep) {
          var j := IndexOf(head, sep).value;
          assert head[j..j + |sep|] == s[j..j + |sep|];
          assert OccursAt(s, sep, j);
        }
      }
      var r := [head] + rest;
      assert r[1..] == rest;
      assert s == head + sep + s[k + |sep|..] by {
        assert s[k..k + |sep|] == sep;
        assert s == s[..k] + s[k..k + |sep|] + s[k + |sep|..];
      }
      r
  }

  /** Index of the first occurrence of `sub` in `s`, or `|s|` when there is none. */
  function FindOr(s: string, sub: string): (k: nat)
    ensures k <= |s|
    ensures forall j :: 0 <= j < k ==> !OccursAt(s, sub, j)
    ensures Contains(s, sub) ==> OccursAt(s, sub, k)
    ensures !Contains(s, sub) ==> k == |s|
  {
    match IndexOf(s, sub)
    case Some(i) => i
    case None => |s|
  }

  /** The first piece of `s.split(sep)` is everything before the first `sep`. */
  lemma SplitHead(s: string, sep: string)
    requires |sep| > 0
    ensures Split(s, sep)[0] == s[..FindOr(s, sep)]
  {
  }

  /** The second piece of `s.split(sep)` is everything between the first and any second `sep`. */
  lemma SplitSecond(s: string, sep: string)
    requires |sep| > 0 && Contains(s, sep)
    ensures var after := s[FindOr(s, sep) + |sep|..];
            Split(s, sep)[1] == after[..FindOr(after, sep)]
  {
    var k := FindOr(s, sep);
    var after := s[k + |sep|..];
    assert Split(s, sep) == [s[..k]] + Split(after, sep);
    SplitHead(after, sep);
  }

  /** An occurrence that ends by `hi` is an occurrence in `s[..hi]`. */
  lemma OccursInPrefix(s: string, sub: string, hi: int, j: int)
    requires 0 <= hi <= |s| && OccursAt(s, sub, j) && j + |sub| <= hi
    ensures OccursAt(s[..hi], sub, j)
  {
    assert s[..hi][j..j + |sub|] == s[j..j + |sub|];
  }

  /** `FindOr` is the only index with nothing before it and an occurrence (or the end) at it. */
  lemma FindOrUnique(s: string, sub: string, k: nat)
    requires k <= |s|
    requires forall j :: 0 <= j < k ==> !OccursAt(s, sub, j)
    requires k == |s| || OccursAt(s, sub, k)
    ensures FindOr(s, sub) == k
  {
  }

  /** When `sub` first occurs right after `pre`, what follows that occurrence is `rest`. */
  lemma AfterFirst(pre: string, sub: string, rest: string)
    requires IndexOf(pre + sub + rest, sub) == Some(|pre|)
    ensures var s := pre + sub + rest;
            FindOr(s, sub) == |pre| && s[FindOr(s, sub) + |sub|..] == rest
  {
    var s := pre + sub + rest;
    assert s[|pre| + |sub|..] == rest;
  }

  /**
   * Cutting `s` at the first `marker` and then at the first `stop` cuts it at the first
   * index where either begins, provided no character of `stop` is the first of `marker`
   * (so a `stop` cannot run into a `marker`).
   */
  lemma FirstOfTwo(s: string, marker: string, stop: string, k: nat)
    requires |marker| > 0 && |stop| > 0
    requires forall i :: 0 <= i < |stop| ==> stop[i] != marker[0]
    requires k <= |s|
    requires forall j :: 0 <= j < k ==> !OccursAt(s, marker, j) && !OccursAt(s, stop, j)
    requires k == |s| || OccursAt(s, marker, k) || OccursAt(s, stop, k)
    ensures var piece := s[..FindOr(s, marker)];
            piece[..FindOr(piece, stop)] == s[..k]
  {
    var k1 := FindOr(s, marker);
    var piece := s[..k1];
    var k2 := FindOr(piece, stop);
    assert k <= k1;
    if k < k2 && OccursAt(s, stop, k) && k + |stop| <= k1 {
      OccursInPrefix(s, stop, k1, k);
    }
    if k2 < k1 && Contains(piece, stop) {
      OccursInSlice(s, stop, 0, k1, k2);
    }
    if OccursAt(s, stop, k) {
      forall j | k <= j < k + |stop| ensures s[j] != marker[0] {
        assert s[j] == s[k..k + |stop|][j - k];
      }
    }
    assert k <= k2;
    assert k2 == k;
    assert piece[..k2] == s[..k];
  }

  /** The first piece of a split is a prefix, so it lacks whatever the whole string lacks. */
  lemma SplitHeadKeepsAbsence(s: string, sep: string, sub: string)
    requires |sep| > 0 && !Contains(s, sub)
    ensures !Contains(Split(s, sep)[0], sub)
  {
    NotContainsSlice(s, sub, 0, |Split(s, sep)[0]|);
  }

  /** ASCII lowercasing: 'A'..'Z' become 'a'..'z', every other character is kept. */
  function LowerChar(c: char): char {
    if 'A' <= c <= 'Z' then (c as int + 32) as char else c
  }

  function AsciiLower(s: string): (r: string)
    ensures |r| == |s|
    ensures forall i :: 0 <= i < |s| ==> r[i] == LowerChar(s[i])
  {
    if s == [] then [] else [LowerChar(s[0])] + AsciiLower(s[1..])
  }

  /** Lowercasing is idempotent. */
  lemma AsciiLowerIdempotent(s: string)
    ensures AsciiLower(AsciiLower(s)) == AsciiLower(s)
  {
    var r := AsciiLower(s);
    assert forall i :: 0 <= i < |r| ==> LowerChar(r[i]) == r[i];
  }
}
