/**
 * A PHP array used as a set by writing `$set[$value] = null`: its keys, in
 * insertion order. Writing an existing key keeps its position; a new key goes
 * to the end.
 */
module OrderedSet {

  predicate NoDuplicates(s: seq<string>) {
    forall i, j :: 0 <= i < j < |s| ==> s[i] != s[j]
  }

  /** The keys after `$set[$x] = null`. */
  function Insert(s: seq<string>, x: string): seq<string> {
    if x in s then s else s + [x]
  }

  /**
   * The keys after writing each of `xs` in turn (also `array_fill_keys($xs,
   * null)` when `s` is empty): `s` stays in place at the front, the new values
   * follow, and a set without duplicates stays without duplicates.
   */
  function InsertAll(s: seq<string>, xs: seq<string>): (r: seq<string>)
    ensures |s| <= |r| && r[..|s|] == s
    ensures forall y :: y in r <==> y in s || y in xs
    ensures NoDuplicates(s) ==> NoDuplicates(r)
    decreases |xs|
  {
    if xs == [] then s
    else
      var r := InsertAll(Insert(s, xs[0]), xs[1..]);
      assert forall y :: y in xs <==> y == xs[0] || y in xs[1..];
      r
  }

  /** Writing values that are all present already changes nothing. */
  lemma {:induction false} InsertAllPresent(s: seq<string>, xs: seq<string>)
    requires forall y :: y in xs ==> y in s
    ensures InsertAll(s, xs) == s
    decreases |xs|
  {
    if xs != [] {
      assert xs[0] in s;
      assert forall y :: y in xs[1..] ==> y in xs;
      InsertAllPresent(s, xs[1..]);
    }
  }

  /** Writing `xs` and then `ys` is writing `xs + ys`: merging runs one after the other is a union. */
  lemma {:induction false} InsertAllAppend(s: seq<string>, xs: seq<string>, ys: seq<string>)
    ensures InsertAll(InsertAll(s, xs), ys) == InsertAll(s, xs + ys)
    decreases |xs|
  {
    if xs == [] {
      assert xs + ys == ys;
    } else {
      var zs := xs + ys;
      assert zs[0] == xs[0] && zs[1..] == xs[1..] + ys;
      assert InsertAll(s, zs) == InsertAll(Insert(s, xs[0]), xs[1..] + ys);
      assert InsertAll(s, xs) == InsertAll(Insert(s, xs[0]), xs[1..]);
      InsertAllAppend(Insert(s, xs[0]), xs[1..], ys);
    }
  }

  /** The loop `foreach ($xs as $x) { $set[$x] = null; }`. */
  method AddAll(s: seq<string>, xs: seq<string>) returns (r: seq<string>)
    ensures r == InsertAll(s, xs)
  {
    r := s;
    var i := 0;
    while i < |xs|
      invariant 0 <= i <= |xs|
      invariant InsertAll(r, xs[i..]) == InsertAll(s, xs)
    {
      assert xs[i..][0] == xs[i];
      assert xs[i..][1..] == xs[i + 1..];
      if xs[i] !in r {
        r := r + [xs[i]];
      }
      i := i + 1;
    }
    assert xs[i..] == [];
  }
}
