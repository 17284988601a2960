/** The two JavaScript array methods the resolvers are built from,
    `Array.prototype.find` and `Array.prototype.filter`, over an immutable
    sequence and a total (side-effect-free) callback. */
module ArrayOps {

  import opened Wrappers

  /** `idx` lists, in strictly increasing order, positions of `s` whose elements
      spell out `r`. */
  ghost predicate Embeds<T>(idx: seq<nat>, r: seq<T>, s: seq<T>) {
    && |idx| == |r|
    && (forall k :: 0 <= k < |idx| ==> idx[k] < |s| && s[idx[k]] == r[k])
    && (forall k :: 0 < k < |idx| ==> idx[k - 1] < idx[k])
  }

  /** `r` is an order-preserving subsequence of `s`. */
  ghost predicate IsSubsequence<T>(r: seq<T>, s: seq<T>) {
    exists idx :: Embeds(idx, r, s)
  }

  /** `Array.prototype.find`: the first element, in sequence order, that
      satisfies `p`, or nothing when no element does. */
  function Find<T>(s: seq<T>, p: T -> bool): (r: Option<T>)
    ensures r.None? <==> forall i :: 0 <= i < |s| ==> !p(s[i])
    ensures r.Some? ==> r.value in s && p(r.value)
    ensures r.Some? ==>
              exists i :: 0 <= i < |s| && s[i] == r.value && forall j :: 0 <= j < i ==> !p(s[j])
  {
    if s == [] then None
    else if p(s[0]) then Some(s[0])
    else
      var r := Find(s[1..], p);
      assert forall i :: 0 < i < |s| ==> s[i] == s[1..][i - 1];
      r
  }

  /** `Array.prototype.filter`: the elements that satisfy `p`, and nothing else. */
  function Filter<T(!new)>(s: seq<T>, p: T -> bool): (r: seq<T>)
    ensures |r| <= |s|
    ensures forall x :: x in r <==> x in s && p(x)
  {
    if s == [] then []
    else
      var rest := Filter(s[1..], p);
      if p(s[0]) then [s[0]] + rest else rest
  }

  /** `Filter` keeps each element that satisfies `p` as often as it occurs in `s`. */
  lemma {:induction false} FilterCounts<T(!new)>(s: seq<T>, p: T -> bool)
    ensures forall x :: multiset(Filter(s, p))[x] == if p(x) then multiset(s)[x] else 0
  {
    if s != [] {
      assert s == [s[0]] + s[1..];
      FilterCounts(s[1..], p);
    }
  }

  /** The elements `Filter` keeps stay in the order they have in `s`. */
  lemma {:induction false} FilterIsSubsequence<T(!new)>(s: seq<T>, p: T -> bool)
    ensures IsSubsequence(Filter(s, p), s)
  {
    if s == [] {
      assert Embeds([], Filter(s, p), s);
    } else {
      FilterIsSubsequence(s[1..], p);
      var rest := Filter(s[1..], p);
      var idx :| Embeds(idx, rest, s[1..]);
      var shifted := ShiftEmbedding(idx, rest, s);
      if p(s[0]) {
        assert Filter(s, p) == [s[0]] + rest;
        PrependEmbedding(shifted, rest, s);
      } else {
        assert Filter(s, p) == rest;
      }
    }
  }

  /** `find` returns what `filter` would list first. */
  lemma {:induction false} FindIsFirstOfFilter<T(!new)>(s: seq<T>, p: T -> bool)
    ensures Find(s, p) == if Filter(s, p) == [] then None else Some(Filter(s, p)[0])
  {
    if s != [] && !p(s[0]) {
      FindIsFirstOfFilter(s[1..], p);
    }
  }

  /** An embedding of `r` into the tail of `s` is one into `s`, past position 0. */
  lemma ShiftEmbedding<T>(idx: seq<nat>, r: seq<T>, s: seq<T>) returns (shifted: seq<nat>)
    requires |s| > 0 && Embeds(idx, r, s[1..])
    ensures Embeds(shifted, r, s)
    ensures forall k :: 0 <= k < |shifted| ==> 0 < shifted[k]
  {
    shifted := seq(|idx|, k requires 0 <= k < |idx| => idx[k] + 1);
  }

  /** Putting the head of `s` before an embedding that avoids position 0. */
  lemma PrependEmbedding<T>(idx: seq<nat>, r: seq<T>, s: seq<T>)
    requires |s| > 0 && Embeds(idx, r, s)
    requires forall k :: 0 <= k < |idx| ==> 0 < idx[k]
    ensures Embeds([0] + idx, [s[0]] + r, s)
  {
  }
}
