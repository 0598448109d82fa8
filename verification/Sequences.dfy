/** Lists of indices and of dictionary keys. */
module Sequences {
  ghost predicate Increasing(ix: seq<nat>) {
    forall i, j :: 0 <= i < j < |ix| ==> ix[i] < ix[j]
  }

  /** ks lists the members of a set once each: one order a dictionary may yield them in. */
  ghost predicate Enumerates<K(!new)>(ks: seq<K>, members: set<K>) {
    && (forall i :: 0 <= i < |ks| ==> ks[i] in members)
    && (forall i, j :: 0 <= i < j < |ks| ==> ks[i] != ks[j])
    && (forall k :: k in members ==> k in ks)
  }

  lemma {:induction false} EnumeratedSize<K(!new)>(ks: seq<K>, members: set<K>)
    requires Enumerates(ks, members)
    ensures |ks| == |members|
  {
    if ks == [] {
      assert members == {};
    } else {
      var front, k := ks[..|ks| - 1], ks[|ks| - 1];
      assert ks == front + [k];
      EnumeratedSize(front, members - {k});
    }
  }

  lemma EnumeratesSnoc<K(!new)>(ks: seq<K>, members: set<K>, k: K)
    requires Enumerates(ks, members) && k !in members
    ensures Enumerates(ks + [k], members + {k})
  {
  }

  lemma {:induction false} Enumeration<K(!new)>(members: set<K>) returns (ks: seq<K>)
    ensures Enumerates(ks, members)
  {
    ks := [];
    if members != {} {
      var k :| k in members;
      var rest := Enumeration(members - {k});
      EnumeratesSnoc(rest, members - {k}, k);
      assert members == members - {k} + {k};
      ks := rest + [k];
    }
  }
}
