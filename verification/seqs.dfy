/**
 * The one list shape the source builds again and again: walk a list in order
 * and append the image of every element that passes a test
 * (`[f(x) for x in xs if ...]` and the `for ...: if ...: out.append(...)` loops).
 */
module Seqs {
  import opened Wrappers

  /** The element an optional value contributes: one or none. */
  function Image<B>(o: Option<B>): (r: seq<B>)
    ensures |r| <= 1
    ensures o.Some? ==> r == [o.value]
    ensures o.None? ==> r == []
  {
    if o.Some? then [o.value] else []
  }

  /** Keeps, in input order and with repetitions, the images of the elements `f` maps to `Some`. */
  function FilterMap<A, B>(f: A -> Option<B>, s: seq<A>): (r: seq<B>)
    ensures |r| <= |s|
    decreases |s|
  {
    if s == [] then [] else FilterMap(f, s[..|s| - 1]) + Image(f(s[|s| - 1]))
  }

  /** One more element processed: what a loop body appends. */
  lemma FilterMapSnoc<A, B>(f: A -> Option<B>, s: seq<A>, i: nat)
    requires i < |s|
    ensures FilterMap(f, s[..i + 1]) == FilterMap(f, s[..i]) + Image(f(s[i]))
  {
    assert s[..i + 1][..i] == s[..i];
  }

  /** Order is kept: the result for a concatenation is the concatenation of the results. */
  lemma {:induction false} FilterMapConcat<A, B>(f: A -> Option<B>, a: seq<A>, b: seq<A>)
    ensures FilterMap(f, a + b) == FilterMap(f, a) + FilterMap(f, b)
    decreases |b|
  {
    if b == [] {
      assert a + b == a;
    } else {
      var b' := b[..|b| - 1];
      assert (a + b)[..|a + b| - 1] == a + b';
      FilterMapConcat(f, a, b');
    }
  }

  /** Exactly the images of kept elements appear: nothing else, nothing missed. */
  lemma {:induction false} FilterMapMember<A, B>(f: A -> Option<B>, s: seq<A>, y: B)
    ensures y in FilterMap(f, s) <==> exists i :: 0 <= i < |s| && f(s[i]) == Some(y)
    decreases |s|
  {
    if s != [] {
      var s' := s[..|s| - 1];
      FilterMapMember(f, s', y);
      if y in FilterMap(f, s) {
        if y !in FilterMap(f, s') {
          assert f(s[|s| - 1]) == Some(y);
        } else {
          var i :| 0 <= i < |s'| && f(s'[i]) == Some(y);
          assert s[i] == s'[i];
        }
      } else {
        forall i | 0 <= i < |s| ensures f(s[i]) != Some(y) {
          if i < |s| - 1 {
            assert s[i] == s'[i];
          }
        }
      }
    }
  }

  /** Concatenation is associative; stated once so that callers need not argue by extensionality. */
  lemma ConcatAssoc<T>(a: seq<T>, b: seq<T>, c: seq<T>)
    ensures (a + b) + c == a + (b + c)
  {
  }

  /** A non-empty sequence is its front followed by its last element. */
  lemma FrontLast<T>(s: seq<T>)
    requires s != []
    ensures s[..|s| - 1] + [s[|s| - 1]] == s
  {
  }

  /** A slice is the slices on either side of any point inside it. */
  lemma SliceSplit<T>(s: seq<T>, i: nat, j: nat, k: nat)
    requires i <= j <= k <= |s|
    ensures s[i..k] == s[i..j] + s[j..k]
  {
  }
}
