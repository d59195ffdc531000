/** Ordered string-to-string dictionaries. Two things in the router have
    this shape and the same update rule: a plain object filled by property
    assignment (`o[k] = v`), and a URL's `searchParams` filled by
    `URLSearchParams.set`. In both, setting a key that is present replaces
    the value of its first occurrence in place (and `set` drops any later
    occurrence), and setting a key that is absent appends the pair. */
module Dicts {
  import opened Js

  type Dict = seq<(string, string)>

  function Keys(d: Dict): seq<string>
  {
    seq(|d|, i requires 0 <= i < |d| => d[i].0)
  }

  predicate UniqueKeys(d: Dict)
  {
    forall i, j :: 0 <= i < j < |d| ==> d[i].0 != d[j].0
  }

  /** The value of the first pair with key `k` (`o[k]`, `searchParams.get(k)`). */
  function Get(d: Dict, k: string): Option<string>
  {
    if d == [] then None
    else if d[0].0 == k then Some(d[0].1)
    else Get(d[1..], k)
  }

  /** `d` with every pair keyed `k` removed. */
  function Without(d: Dict, k: string): (r: Dict)
    ensures Get(r, k) == None
    ensures forall k' :: k' != k ==> Get(r, k') == Get(d, k')
    ensures forall x :: x in Keys(r) ==> x in Keys(d) && x != k
    ensures |r| <= |d|
  {
    if d == [] then []
    else
      assert Keys(d) == [d[0].0] + Keys(d[1..]);
      if d[0].0 == k then Without(d[1..], k)
      else
        var w := Without(d[1..], k);
        assert Keys([d[0]] + w) == [d[0].0] + Keys(w);
        [d[0]] + w
  }

  /** `URLSearchParams.set(k, v)`, and equally `o[k] = v` on an object. */
  function Put(d: Dict, k: string, v: string): Dict
  {
    if d == [] then [(k, v)]
    else if d[0].0 == k then [(k, v)] + Without(d[1..], k)
    else [d[0]] + Put(d[1..], k, v)
  }

  /** The keys' membership agrees with Get. */
  lemma {:induction false} InKeys(d: Dict, k: string)
    ensures k in Keys(d) <==> Get(d, k).Some?
  {
    if d != [] {
      InKeys(d[1..], k);
      assert Keys(d) == [d[0].0] + Keys(d[1..]);
    }
  }

  /** After a set, the key reads back the new value and every other key
      reads what it read before. */
  lemma {:induction false} GetPut(d: Dict, k: string, v: string, k': string)
    ensures Get(Put(d, k, v), k') == if k' == k then Some(v) else Get(d, k')
  {
    if d != [] && d[0].0 != k {
      GetPut(d[1..], k, v, k');
    }
  }

  /** Without keeps the keys of a dictionary with unique keys, minus `k`, in order. */
  lemma {:induction false} WithoutAbsent(d: Dict, k: string)
    requires k !in Keys(d)
    ensures Without(d, k) == d
  {
    if d != [] {
      assert Keys(d) == [d[0].0] + Keys(d[1..]);
      WithoutAbsent(d[1..], k);
    }
  }

  /** On unique keys, a present key keeps its position and a new key goes
      to the end; the other keys keep their order. */
  lemma {:induction false} PutKeys(d: Dict, k: string, v: string)
    requires UniqueKeys(d)
    ensures Keys(Put(d, k, v)) == if k in Keys(d) then Keys(d) else Keys(d) + [k]
  {
    if d != [] {
      KeysCons(d[0], d[1..]);
      assert [d[0]] + d[1..] == d;
      if d[0].0 == k {
        assert k !in Keys(d[1..]);
        WithoutAbsent(d[1..], k);
        KeysCons((k, v), d[1..]);
      } else {
        PutKeys(d[1..], k, v);
        KeysCons(d[0], Put(d[1..], k, v));
      }
    }
  }

  /** The keys of a dictionary with one more pair in front. */
  lemma KeysCons(p: (string, string), d: Dict)
    ensures Keys([p] + d) == [p.0] + Keys(d)
  {
  }

  /** Setting a key never creates a duplicate key. */
  lemma {:induction false} PutUnique(d: Dict, k: string, v: string)
    requires UniqueKeys(d)
    ensures UniqueKeys(Put(d, k, v))
  {
    PutKeys(d, k, v);
    var r := Put(d, k, v);
    assert forall i :: 0 <= i < |r| ==> r[i].0 == Keys(r)[i];
    assert forall i :: 0 <= i < |d| ==> d[i].0 == Keys(d)[i];
    if k !in Keys(d) {
      forall i, j | 0 <= i < j < |r| ensures r[i].0 != r[j].0 {
        if j == |d| {
          assert Keys(r)[i] == Keys(d)[i];
        }
      }
    }
  }

  /** Each pair of `ps` set in order, as a `for … in` loop of `set` calls does. */
  function PutAll(d: Dict, ps: Dict): Dict
    decreases |ps|
  {
    if ps == [] then d else PutAll(Put(d, ps[0].0, ps[0].1), ps[1..])
  }

  /** After setting every pair of `ps` (whose keys are unique, as an
      object's are), a key of `ps` reads its value there, and any other key
      reads what it did before. */
  lemma {:induction false} GetPutAll(d: Dict, ps: Dict, k: string)
    requires UniqueKeys(ps)
    ensures Get(PutAll(d, ps), k) == if Get(ps, k).Some? then Get(ps, k) else Get(d, k)
    decreases |ps|
  {
    if ps != [] {
      GetPutAll(Put(d, ps[0].0, ps[0].1), ps[1..], k);
      GetPut(d, ps[0].0, ps[0].1, k);
      if ps[0].0 == k {
        InKeys(ps[1..], k);
        assert forall x :: x in Keys(ps[1..]) ==> x != k by {
          forall x | x in Keys(ps[1..]) ensures x != k {
            var i :| 0 <= i < |ps[1..]| && Keys(ps[1..])[i] == x;
            assert ps[i + 1].0 == x;
          }
        }
      }
    }
  }

  /** Setting pairs into a dictionary with unique keys keeps its keys unique. */
  lemma {:induction false} PutAllUnique(d: Dict, ps: Dict)
    requires UniqueKeys(d)
    ensures UniqueKeys(PutAll(d, ps))
    decreases |ps|
  {
    if ps != [] {
      PutUnique(d, ps[0].0, ps[0].1);
      PutAllUnique(Put(d, ps[0].0, ps[0].1), ps[1..]);
    }
  }

  /** The value of the last pair of `ps` keyed `k`. */
  function LastValue(ps: Dict, k: string): Option<string>
  {
    if ps == [] then None
    else Coalesce(LastValue(ps[1..], k), if ps[0].0 == k then Some(ps[0].1) else None)
  }

  /** A key no pair of `ps` carries has no last value. */
  lemma {:induction false} LastValueAbsent(ps: Dict, k: string)
    requires forall i :: 0 <= i < |ps| ==> ps[i].0 != k
    ensures LastValue(ps, k).None?
    decreases |ps|
  {
    if ps != [] {
      assert forall i :: 0 <= i < |ps[1..]| ==> ps[1..][i] == ps[i + 1];
      LastValueAbsent(ps[1..], k);
    }
  }

  /** After setting the pairs of `ps` in order, duplicates included, a key
      reads the value of its last pair in `ps`, or what it read before when
      `ps` does not set it. */
  lemma {:induction false} GetPutAllLast(d: Dict, ps: Dict, k: string)
    ensures Get(PutAll(d, ps), k) == Coalesce(LastValue(ps, k), Get(d, k))
    decreases |ps|
  {
    if ps != [] {
      GetPutAllLast(Put(d, ps[0].0, ps[0].1), ps[1..], k);
      GetPut(d, ps[0].0, ps[0].1, k);
    }
  }

  /** Setting pairs never moves a key that is already there: the old keys
      stay a prefix of the new ones. */
  lemma {:induction false} PutAllKeepsOrder(d: Dict, ps: Dict)
    requires UniqueKeys(d)
    ensures |Keys(d)| <= |Keys(PutAll(d, ps))| && Keys(d) == Keys(PutAll(d, ps))[..|Keys(d)|]
    decreases |ps|
  {
    if ps != [] {
      var d' := Put(d, ps[0].0, ps[0].1);
      PutKeys(d, ps[0].0, ps[0].1);
      PutUnique(d, ps[0].0, ps[0].1);
      PutAllKeepsOrder(d', ps[1..]);
      assert Keys(d') [..|Keys(d)|] == Keys(d);
    }
  }

  /** `Object.assign({}, a, b)`. */
  function Assign(a: Dict, b: Dict): Dict
  {
    PutAll(PutAll([], a), b)
  }

  /** Object.assign merges key by key, the later source winning, and keeps
      the keys unique. */
  lemma AssignMerges(a: Dict, b: Dict, k: string)
    requires UniqueKeys(a) && UniqueKeys(b)
    ensures UniqueKeys(Assign(a, b))
    ensures Get(Assign(a, b), k) == if Get(b, k).Some? then Get(b, k) else Get(a, k)
  {
    PutAllUnique([], a);
    PutAllUnique(PutAll([], a), b);
    GetPutAll(PutAll([], a), b, k);
    GetPutAll([], a, k);
  }
}
