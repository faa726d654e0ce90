/**
 * The parts of Go's `strings` package that the middleware relies on:
 * `strings.Index`, `strings.Split` with a non-empty separator and
 * `strings.Join`. Go strings are byte strings; here every element of a
 * `string` stands for one byte.
 */
module GoStrings {
  import opened Wrappers

  /** `pat` occurs in `s` starting at position `k`. */
  predicate OccursAt(s: string, pat: string, k: int)
  {
    0 <= k && k + |pat| <= |s| && s[k..k + |pat|] == pat
  }

  /** `pat` occurs nowhere in `s`. */
  predicate NoOccurrence(s: string, pat: string)
  {
    forall k :: 0 <= k <= |s| ==> !OccursAt(s, pat, k)
  }

  /** The first occurrence of `pat` in `s` at or after position `i`. */
  function IndexFrom(s: string, pat: string, i: nat): (r: Option<nat>)
    requires i <= |s|
    ensures r.Some? ==> i <= r.value && OccursAt(s, pat, r.value)
    ensures forall k :: i <= k && (r.None? || k < r.value) ==> !OccursAt(s, pat, k)
    decreases |s| - i
  {
    if i + |pat| > |s| then None
    else if s[i..i + |pat|] == pat then Some(i)
    else IndexFrom(s, pat, i + 1)
  }

  /** `strings.Index`: the first occurrence of `pat` in `s`, if any. */
  function Index(s: string, pat: string): (r: Option<nat>)
    ensures r.Some? ==> OccursAt(s, pat, r.value)
    ensures forall k :: 0 <= k && (r.None? || k < r.value) ==> !OccursAt(s, pat, k)
  {
    IndexFrom(s, pat, 0)
  }

  /** An occurrence with none before it is the one `Index` finds. */
  lemma IndexIsFirst(s: string, pat: string, k: nat)
    requires OccursAt(s, pat, k)
    requires forall j :: 0 <= j < k ==> !OccursAt(s, pat, j)
    ensures Index(s, pat) == Some(k)
  {
  }

  /**
   * `strings.Split(s, sep)` for a non-empty `sep`: the pieces of `s` between
   * the successive non-overlapping occurrences of `sep`, found left to right.
   */
  function Split(s: string, sep: string): (parts: seq<string>)
    requires |sep| > 0
    ensures |parts| >= 1
    ensures forall k :: 0 <= k < |parts| ==> NoOccurrence(parts[k], sep)
    decreases |s|
  {
    match Index(s, sep)
    case None => [s]
    case Some(i) =>
      PrefixBeforeFirstHasNone(s, sep, i);
      [s[..i]] + Split(s[i + |sep|..], sep)
  }

  /** The text in front of the first occurrence of `sep` holds no occurrence. */
  lemma PrefixBeforeFirstHasNone(s: string, sep: string, i: nat)
    requires |sep| > 0 && i <= |s|
    requires forall k :: 0 <= k < i ==> !OccursAt(s, sep, k)
    ensures NoOccurrence(s[..i], sep)
  {
    forall k | OccursAt(s[..i], sep, k)
      ensures false
    {
      assert s[..i][k..k + |sep|] == s[k..k + |sep|];
      assert OccursAt(s, sep, k);
    }
  }

  /** The first piece runs up to the first occurrence of `sep`, or is all of `s`. */
  lemma SplitHead(s: string, sep: string)
    requires |sep| > 0
    ensures Index(s, sep).None? ==> Split(s, sep) == [s]
    ensures Index(s, sep).Some? ==> Split(s, sep)[0] == s[..Index(s, sep).value]
  {
  }

  /** After the first occurrence of `sep`, the split goes on with the rest of `s`. */
  lemma SplitTail(s: string, sep: string)
    requires |sep| > 0
    requires Index(s, sep).Some?
    ensures Index(s, sep).value + |sep| <= |s|
    ensures Split(s, sep)[1..] == Split(s[Index(s, sep).value + |sep|..], sep)
  {
  }

  /** `strings.Join(parts, sep)`: the parts with `sep` between neighbours. */
  function Join(parts: seq<string>, sep: string): (s: string)
    ensures |parts| > 0 ==> |s| == TotalLength(parts) + (|parts| - 1) * |sep|
    ensures |parts| > 0 ==> s[..|parts[0]|] == parts[0]
  {
    if |parts| == 0 then ""
    else if |parts| == 1 then parts[0]
    else parts[0] + sep + Join(parts[1..], sep)
  }

  /** The summed lengths of the parts. */
  function TotalLength(parts: seq<string>): nat
  {
    if parts == [] then 0 else |parts[0]| + TotalLength(parts[1..])
  }

  /** Joining the pieces of a split with the same separator gives back the input. */
  lemma {:induction false} JoinSplit(s: string, sep: string)
    requires |sep| > 0
    ensures Join(Split(s, sep), sep) == s
    decreases |s|
  {
    SplitHead(s, sep);
    if Index(s, sep).Some? {
      var i := Index(s, sep).value;
      SplitTail(s, sep);
      var rest := s[i + |sep|..];
      var parts := Split(s, sep);
      JoinSplit(rest, sep);
      assert parts == [s[..i]] + Split(rest, sep);
      assert Join(parts, sep) == s[..i] + sep + rest;
      assert s == s[..i] + s[i..i + |sep|] + rest;
    }
  }

  /** A one-element separator occurs in `s` only where `s` holds that element. */
  lemma SingleOccurrence(s: string, c: char, k: int)
    requires OccursAt(s, [c], k)
    ensures s[k] == c
  {
    assert s[k..k + 1][0] == s[k];
  }

  /**
   * Splitting a join on a one-element separator gives back the parts,
   * provided there is at least one part and no part holds the separator.
   */
  lemma {:induction false} SplitJoin(parts: seq<string>, c: char)
    requires |parts| >= 1
    requires forall k :: 0 <= k < |parts| ==> c !in parts[k]
    ensures Split(Join(parts, [c]), [c]) == parts
    decreases |parts|
  {
    var s := Join(parts, [c]);
    if |parts| == 1 {
      forall k | OccursAt(s, [c], k)
        ensures false
      {
        SingleOccurrence(s, c, k);
      }
      assert Index(s, [c]) == None;
    } else {
      var p := parts[0];
      var tail := Join(parts[1..], [c]);
      assert s == p + [c] + tail;
      forall j | 0 <= j < |p|
        ensures !OccursAt(s, [c], j)
      {
        assert s[j] == p[j];
        if OccursAt(s, [c], j) {
          SingleOccurrence(s, c, j);
        }
      }
      assert s[|p|..|p| + 1] == [c];
      IndexIsFirst(s, [c], |p|);
      assert s[..|p|] == p;
      assert s[|p| + 1..] == tail;
      SplitJoin(parts[1..], c);
      assert parts == [p] + parts[1..];
    }
  }
}
