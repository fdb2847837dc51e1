/** Small generic pieces shared by every other module: an optional value,
    the prefix a query's `.limit(n)` or an array's `.slice(0, n)` keeps, and
    the fixed-size chunking the sync jobs use for their batched upserts. */
module Common {

  /** A value that may be absent: JavaScript's `null`/`undefined` next to a real value. */
  datatype Option<+T> = None | Some(value: T) {
    function GetOr(default: T): T {
      match this
      case Some(v) => v
      case None => default
    }
  }

  /** A JavaScript string value that is truthy: present and non-empty. */
  predicate Truthy(s: Option<string>) {
    s.Some? && s.value != ""
  }

  /** `a || b` on optional strings. */
  function Or(a: Option<string>, b: Option<string>): Option<string> {
    if Truthy(a) then a else b
  }

  /** `value || null`: an empty string counts as none. */
  function OrNull(s: Option<string>): (r: Option<string>)
    ensures r.Some? <==> Truthy(s)
    ensures r.Some? ==> r == s
  {
    if Truthy(s) then s else None
  }

  function Min(a: int, b: int): int {
    if a <= b then a else b
  }

  function Max(a: int, b: int): int {
    if a <= b then b else a
  }

  /** The first `n` elements of `s`, or all of `s` when it is shorter. */
  function Take<T>(s: seq<T>, n: nat): (r: seq<T>)
    ensures |r| == Min(|s|, n)
    ensures r <= s
  {
    if |s| <= n then s else s[..n]
  }

  /** `s` cut, in order, into consecutive chunks of `size` elements; only the
      last chunk may be shorter, and no chunk is empty. */
  function Batches<T>(s: seq<T>, size: nat): seq<seq<T>>
    requires size > 0
    decreases |s|
  {
    if s == [] then []
    else if |s| <= size then [s]
    else [s[..size]] + Batches(s[size..], size)
  }

  /** The chunks of `bs` joined back together. */
  function Flatten<T>(bs: seq<seq<T>>): seq<T> {
    if bs == [] then [] else bs[0] + Flatten(bs[1..])
  }

  /** Batching loses nothing, duplicates nothing and keeps the order; every
      chunk holds between 1 and `size` elements and all but the last exactly `size`. */
  lemma {:induction false} BatchesPartition<T>(s: seq<T>, size: nat)
    requires size > 0
    ensures Flatten(Batches(s, size)) == s
    ensures forall i :: 0 <= i < |Batches(s, size)| ==> 0 < |Batches(s, size)[i]| <= size
    ensures forall i :: 0 <= i < |Batches(s, size)| - 1 ==> |Batches(s, size)[i]| == size
    decreases |s|
  {
    if s != [] && |s| > size {
      BatchesPartition(s[size..], size);
      var bs := Batches(s, size);
      assert bs == [s[..size]] + Batches(s[size..], size);
      assert bs[1..] == Batches(s[size..], size);
      assert s == s[..size] + s[size..];
    }
  }

  /** The first chunk of a non-empty sequence is what `s.slice(0, size)` returns,
      and the remaining chunks are the chunks of what follows it. */
  lemma BatchesHead<T>(s: seq<T>, size: nat)
    requires size > 0 && s != []
    ensures Batches(s, size) == [s[..Min(size, |s|)]] + Batches(s[Min(size, |s|)..], size)
  {
    if |s| <= size {
      assert s[..|s|] == s;
      assert s[|s|..] == [];
    }
  }

  /** `sub` can be obtained from `s` by deleting elements, keeping the order. */
  predicate IsSubsequence<T(==)>(sub: seq<T>, s: seq<T>)
    decreases |s|
  {
    if sub == [] then true
    else if s == [] then false
    else if sub[0] == s[0] then IsSubsequence(sub[1..], s[1..])
    else IsSubsequence(sub, s[1..])
  }

  lemma {:induction false} SubsequenceElements<T>(sub: seq<T>, s: seq<T>)
    requires IsSubsequence(sub, s)
    ensures forall x :: x in sub ==> x in s
    ensures |sub| <= |s|
    decreases |s|
  {
    if sub != [] && s != [] {
      if sub[0] == s[0] {
        SubsequenceElements(sub[1..], s[1..]);
        assert forall x :: x in sub ==> x == sub[0] || x in sub[1..];
      } else {
        SubsequenceElements(sub, s[1..]);
      }
    }
  }

  lemma {:induction false} PrefixIsSubsequence<T>(p: seq<T>, s: seq<T>)
    requires p <= s
    ensures IsSubsequence(p, s)
    decreases |s|
  {
    if p != [] {
      assert p[0] == s[0];
      PrefixIsSubsequence(p[1..], s[1..]);
    }
  }

  lemma {:induction false} SubsequenceTransitive<T>(a: seq<T>, b: seq<T>, c: seq<T>)
    requires IsSubsequence(a, b) && IsSubsequence(b, c)
    ensures IsSubsequence(a, c)
    decreases |c|
  {
    if a != [] {
      SubsequenceElements(b, c);
      assert b != [];
      assert c != [];
      if b[0] == c[0] {
        if a[0] == b[0] {
          SubsequenceTransitive(a[1..], b[1..], c[1..]);
        } else {
          SubsequenceTransitive(a, b[1..], c[1..]);
        }
      } else {
        SubsequenceTransitive(a, b, c[1..]);
        if a[0] == c[0] {
          SubsequenceDropHead(a, c[1..]);
        }
      }
    }
  }

  lemma {:induction false} SubsequenceDropHead<T>(a: seq<T>, s: seq<T>)
    requires a != [] && IsSubsequence(a, s)
    ensures IsSubsequence(a[1..], s)
    decreases |s|
  {
    assert s != [];
    if a[0] == s[0] {
      if a[1..] != [] {
        SubsequenceDropHead(a[1..], s[1..]);
        assert IsSubsequence(a[1..][1..], s[1..]);
        if a[1..][0] != s[0] {
          assert IsSubsequence(a[1..], s[1..]);
        } else {
          assert IsSubsequence(a[1..][1..], s[1..]);
        }
      }
    } else {
      SubsequenceDropHead(a, s[1..]);
      if a[1..] != [] && a[1..][0] == s[0] {
        SubsequenceDropHead(a[1..], s[1..]);
      }
    }
  }
}
