/**
 * The three Python string operations the bot applies to user input:
 * `str.strip()`, `str.replace(c, "")` for a single character, and
 * `str.split(sep)` for a single-character separator. Stripping is defined
 * for any set of characters to strip, because `int()` skips a smaller set
 * of whitespace than `str.strip()` does.
 */
module Text {

  /** The characters Python's `str.strip()` (with no argument) treats as whitespace. */
  predicate IsSpace(c: char) {
    || ('\t' <= c <= '\r')
    || ('\U{001C}' <= c <= ' ')
    || c == '\U{0085}' || c == '\U{00A0}' || c == '\U{1680}'
    || ('\U{2000}' <= c <= '\U{200A}')
    || c == '\U{2028}' || c == '\U{2029}' || c == '\U{202F}' || c == '\U{205F}' || c == '\U{3000}'
  }

  /** Every character of `s` is one of the characters `ws` admits. */
  predicate Every(s: string, ws: char -> bool) {
    forall i :: 0 <= i < |s| ==> ws(s[i])
  }

  predicate AllSpace(s: string) {
    Every(s, IsSpace)
  }

  /** The end of the run of `ws` characters that starts at `i`. */
  function SpaceRunEnd(s: string, i: nat, ws: char -> bool): (e: nat)
    requires i <= |s|
    ensures i <= e <= |s|
    ensures forall k :: i <= k < e ==> ws(s[k])
    ensures e == |s| || !ws(s[e])
    decreases |s| - i
  {
    if i < |s| && ws(s[i]) then SpaceRunEnd(s, i + 1, ws) else i
  }

  /** The start of the run of `ws` characters that ends at `j`, not going below `lo`. */
  function SpaceRunStart(s: string, lo: nat, j: nat, ws: char -> bool): (b: nat)
    requires lo <= j <= |s|
    ensures lo <= b <= j
    ensures forall k :: b <= k < j ==> ws(s[k])
    ensures b == lo || !ws(s[b - 1])
    decreases j
  {
    if lo < j && ws(s[j - 1]) then SpaceRunStart(s, lo, j - 1, ws) else j
  }

  /** How many `ws` characters `s` starts with. */
  function LeadingSpace(s: string, ws: char -> bool): (n: nat)
    ensures n <= |s|
  {
    SpaceRunEnd(s, 0, ws)
  }

  /**
   * `s` with the `ws` characters removed from both ends: the infix of `s`
   * after its leading run, followed only by `ws` characters, and with
   * characters outside `ws` at both of its ends.
   */
  function StripBy(s: string, ws: char -> bool): (r: string)
    ensures var i := LeadingSpace(s, ws);
      && i + |r| <= |s| && r == s[i..i + |r|]
      && (forall k :: 0 <= k < i ==> ws(s[k]))
      && (forall k :: i + |r| <= k < |s| ==> ws(s[k]))
    ensures r == [] || (!ws(r[0]) && !ws(r[|r| - 1]))
    ensures r == [] <==> Every(s, ws)
    ensures s == [] || (!ws(s[0]) && !ws(s[|s| - 1])) ==> r == s
  {
    var i := LeadingSpace(s, ws);
    var j := SpaceRunStart(s, i, |s|, ws);
    assert i < |s| ==> j > i;
    s[i..j]
  }

  /**
   * `s.strip()`: whitespace removed from both ends. The result is the
   * infix of `s` after its leading whitespace, followed only by whitespace,
   * and with non-space characters at both of its ends.
   */
  function Strip(s: string): (r: string)
    ensures var i := LeadingSpace(s, IsSpace);
      && i + |r| <= |s| && r == s[i..i + |r|]
      && (forall k :: 0 <= k < i ==> IsSpace(s[k]))
      && (forall k :: i + |r| <= k < |s| ==> IsSpace(s[k]))
    ensures r == [] || (!IsSpace(r[0]) && !IsSpace(r[|r| - 1]))
    ensures r == [] <==> AllSpace(s)
    ensures s == [] || (!IsSpace(s[0]) && !IsSpace(s[|s| - 1])) ==> r == s
  {
    StripBy(s, IsSpace)
  }

  /**
   * The independent characterisation of stripping: `ws` characters around
   * a core with ends outside `ws` (or an empty core) strip to exactly that core.
   */
  lemma {:induction false} StripOf(p: string, t: string, q: string, ws: char -> bool)
    requires Every(p, ws) && Every(q, ws)
    requires t == [] || (!ws(t[0]) && !ws(t[|t| - 1]))
    ensures StripBy(p + t + q, ws) == t
  {
    var s := p + t + q;
    var i := LeadingSpace(s, ws);
    var j := SpaceRunStart(s, i, |s|, ws);
    assert forall k :: 0 <= k < |p| ==> s[k] == p[k];
    assert forall k :: |p| + |t| <= k < |s| ==> s[k] == q[k - |p| - |t|];
    if t == [] {
      assert i == |s|;
    } else {
      assert s[|p|] == t[0] && s[|p| + |t| - 1] == t[|t| - 1];
      assert i == |p|;
      assert j == |p| + |t|;
      assert s[i..j] == t;
    }
  }

  /** Joining two strings of `ws` characters gives a string of `ws` characters. */
  lemma EveryConcat(a: string, b: string, ws: char -> bool)
    requires Every(a, ws) && Every(b, ws)
    ensures Every(a + b, ws)
  {
    var ab := a + b;
    forall k | 0 <= k < |ab| ensures ws(ab[k]) {
      if k >= |a| { assert ab[k] == b[k - |a|]; }
    }
  }

  /** Any string is its stripped core with a run of `ws` characters on each side. */
  lemma StripParts(t: string, ws: char -> bool) returns (head: string, tail: string)
    ensures t == head + StripBy(t, ws) + tail
    ensures Every(head, ws) && Every(tail, ws)
  {
    var i := LeadingSpace(t, ws);
    var r := StripBy(t, ws);
    head, tail := t[..i], t[i + |r|..];
    Slices(t, i, i + |r|);
    forall k | 0 <= k < |head| ensures ws(head[k]) { assert head[k] == t[k]; }
    forall k | 0 <= k < |tail| ensures ws(tail[k]) { assert tail[k] == t[i + |r| + k]; }
  }

  /** Extra `ws` characters on either side do not change what stripping returns. */
  lemma StripAbsorbsSpace(p: string, t: string, q: string, ws: char -> bool)
    requires Every(p, ws) && Every(q, ws)
    ensures StripBy(p + t + q, ws) == StripBy(t, ws)
  {
    var head, tail := StripParts(t, ws);
    var r := StripBy(t, ws);
    Regroup(p, head, r, tail, q);
    EveryConcat(p, head, ws);
    EveryConcat(tail, q, ws);
    StripOf(p + head, r, tail + q, ws);
  }

  /** `s.replace(c, "")` for a one-character `c`: every occurrence of `c` deleted, the rest kept in order. */
  function RemoveAll(s: string, c: char): (r: string)
    ensures c !in r
    ensures forall x :: x in r ==> x in s
    ensures multiset(r) == multiset(s)[c := 0]
    ensures c !in s ==> r == s
  {
    if s == [] then []
    else
      assert s == [s[0]] + s[1..];
      (if s[0] == c then [] else [s[0]]) + RemoveAll(s[1..], c)
  }

  /** Deleting a character distributes over concatenation, so the survivors keep their order. */
  lemma {:induction false} RemoveAllConcat(a: string, b: string, c: char)
    ensures RemoveAll(a + b, c) == RemoveAll(a, c) + RemoveAll(b, c)
  {
    if a == [] {
      assert a + b == b;
    } else {
      var h, t := a[0], a[1..];
      var x := if h == c then [] else [h];
      SplitHead(a, b);
      RemoveAllCons(h, t + b, c);
      RemoveAllCons(h, t, c);
      RemoveAllConcat(t, b, c);
      AppendAssoc(x, RemoveAll(t, c), RemoveAll(b, c));
    }
  }

  /** Deleting from a string that starts with `h`: `h` survives unless it is `c`. */
  lemma RemoveAllCons(h: char, t: string, c: char)
    ensures RemoveAll([h] + t, c) == (if h == c then [] else [h]) + RemoveAll(t, c)
  {
    var s := [h] + t;
    assert s[0] == h && s[1..] == t;
  }

  /** A non-empty string is its first character followed by the rest, also inside a concatenation. */
  lemma SplitHead(a: string, b: string)
    requires a != []
    ensures a == [a[0]] + a[1..] && a + b == [a[0]] + (a[1..] + b)
  {
  }

  /** Regrouping a five-part concatenation. */
  lemma Regroup(p: string, head: string, r: string, tail: string, q: string)
    ensures p + (head + r + tail) + q == (p + head) + r + (tail + q)
  {
  }

  /** Cutting a string at two positions and gluing the three slices back gives the string. */
  lemma Slices(s: string, i: nat, j: nat)
    requires i <= j <= |s|
    ensures s == s[..i] + s[i..j] + s[j..]
  {
  }

  /** Concatenation is associative. */
  lemma AppendAssoc(x: string, p: string, q: string)
    ensures x + (p + q) == (x + p) + q
  {
  }

  /** Position of the first occurrence of `c` in `s`. */
  function IndexOf(s: string, c: char): (i: nat)
    requires c in s
    ensures i < |s| && s[i] == c && c !in s[..i]
  {
    if s[0] == c then 0 else 1 + IndexOf(s[1..], c)
  }

  /** `sep.join(parts)`. */
  function JoinWith(parts: seq<string>, sep: char): string {
    if parts == [] then []
    else if |parts| == 1 then parts[0]
    else parts[0] + [sep] + JoinWith(parts[1..], sep)
  }

  /**
   * `s.split(sep)`: the pieces between occurrences of `sep`, one more piece
   * than there are separators (so an empty string splits into one empty piece).
   */
  function Split(s: string, sep: char): (parts: seq<string>)
    ensures |parts| == multiset(s)[sep] + 1
    ensures forall i :: 0 <= i < |parts| ==> sep !in parts[i]
    ensures JoinWith(parts, sep) == s
    decreases |s|
  {
    if sep !in s then [s]
    else
      var i := IndexOf(s, sep);
      var rest := Split(s[i + 1..], sep);
      Slices(s, i, i + 1);
      assert s[i..i + 1] == [sep];
      assert multiset(s[..i])[sep] == 0;
      [s[..i]] + rest
  }

  /** Splitting a join of separator-free pieces gives the pieces back. */
  lemma {:induction false} SplitJoin(parts: seq<string>, sep: char)
    requires parts != []
    requires forall i :: 0 <= i < |parts| ==> sep !in parts[i]
    ensures Split(JoinWith(parts, sep), sep) == parts
  {
    if |parts| > 1 {
      var p := parts[0];
      var tail := JoinWith(parts[1..], sep);
      var s := p + [sep] + tail;
      assert JoinWith(parts, sep) == s;
      assert sep in s by { assert s[|p|] == sep; }
      var i := IndexOf(s, sep);
      assert forall j :: 0 <= j < |p| ==> s[j] == p[j];
      assert i <= |p| by { assert s[|p|] == sep; }
      assert s[..i] == p;
      assert s[i + 1..] == tail;
      SplitJoin(parts[1..], sep);
    }
  }

  /** The two-piece case used by the menu's `action|file_id` callback data. */
  lemma SplitPair(a: string, b: string, sep: char)
    requires sep !in a && sep !in b
    ensures Split(a + [sep] + b, sep) == [a, b]
  {
    SplitJoin([a, b], sep);
    assert JoinWith([a, b], sep) == a + [sep] + b;
  }
}
