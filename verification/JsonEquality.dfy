/** Sorting the members at every level decides equality up to member order. */
module JsonEquality {
  import opened JsonValues

  lemma IndexOfUnique(ms: seq<Member>, i: nat)
    requires UniqueKeys(ms) && i < |ms|
    ensures HasKey(ms, ms[i].key) && IndexOf(ms, ms[i].key) == i
  {
    HasKeyAt(ms, ms[i].key);
  }

  /** The normalised members, by key. */
  lemma NormalizedMember(ms: seq<Member>, k: string, nv: Json)
    requires UniqueKeys(ms)
    ensures Member(k, nv) in NormalizeMembers(ms)
       <==> HasKey(ms, k) && nv == Normalize(ms[IndexOf(ms, k)].value)
  {
    var ns := NormalizeMembers(ms);
    if Member(k, nv) in ns {
      var i :| 0 <= i < |ns| && ns[i] == Member(k, nv);
      NormalizeMembersAt(ms, i);
      IndexOfUnique(ms, i);
    }
    if HasKey(ms, k) && nv == Normalize(ms[IndexOf(ms, k)].value) {
      NormalizeMembersAt(ms, IndexOf(ms, k));
      assert ns[IndexOf(ms, k)] in ns;
    }
  }

  lemma NormalizedUnique(ms: seq<Member>)
    requires UniqueKeys(ms)
    ensures UniqueKeys(NormalizeMembers(ms))
  {
    var ns := NormalizeMembers(ms);
    forall i, j | 0 <= i < j < |ns| ensures ns[i].key != ns[j].key {
      NormalizeMembersAt(ms, i);
      NormalizeMembersAt(ms, j);
    }
  }

  /** Two member lists sort to the same list when they have the same keys with
      values that normalise alike, and only then. */
  lemma SortedAlike(ms: seq<Member>, ns: seq<Member>)
    requires UniqueKeys(ms) && UniqueKeys(ns)
    ensures SortByKey(NormalizeMembers(ms)) == SortByKey(NormalizeMembers(ns)) <==>
      forall k, nv :: Member(k, nv) in NormalizeMembers(ms) <==> Member(k, nv) in NormalizeMembers(ns)
  {
    var a, b := NormalizeMembers(ms), NormalizeMembers(ns);
    NormalizedUnique(ms);
    NormalizedUnique(ns);
    SortIsRight(a);
    SortIsRight(b);
    if forall k, nv :: Member(k, nv) in a <==> Member(k, nv) in b {
      forall x ensures x in a <==> x in b {
        assert x == Member(x.key, x.value);
      }
      SortedDetermined(SortByKey(a), SortByKey(b));
    }
    if SortByKey(a) == SortByKey(b) {
      forall k, nv ensures Member(k, nv) in a <==> Member(k, nv) in b {
        assert Member(k, nv) in a <==> Member(k, nv) in SortByKey(a);
      }
    }
  }

  /** Two values are equal up to member order exactly when they normalise to the same value. */
  lemma {:induction false} SameMeansNormalizeAlike(v: Json, w: Json)
    requires WellFormed(v) && WellFormed(w)
    ensures Same(v, w) <==> Normalize(v) == Normalize(w)
    decreases v
  {
    match v {
      case Arr(items) =>
        if w.Arr? && |items| == |w.items| {
          ItemsAlike(items, w.items);
        }
      case Obj(ms) =>
        if w.Obj? {
          MembersAlike(ms, w.members);
        }
      case _ =>
    }
  }

  lemma {:induction false} ItemsAlike(items: seq<Json>, others: seq<Json>)
    requires |items| == |others|
    requires forall i :: 0 <= i < |items| ==> WellFormed(items[i]) && WellFormed(others[i])
    ensures (forall i :: 0 <= i < |items| ==> Same(items[i], others[i]))
       <==> NormalizeItems(items) == NormalizeItems(others)
    decreases items
  {
    forall i | 0 <= i < |items|
      ensures Same(items[i], others[i]) <==> NormalizeItems(items)[i] == NormalizeItems(others)[i]
    {
      SameMeansNormalizeAlike(items[i], others[i]);
      NormalizeItemsAt(items, i);
      NormalizeItemsAt(others, i);
    }
  }

  function ValueAt(ms: seq<Member>, k: string): Json
    requires HasKey(ms, k)
  {
    ms[IndexOf(ms, k)].value
  }

  /** The same keys, with values that normalise alike. */
  ghost predicate Agree(ms: seq<Member>, ns: seq<Member>) {
    forall k :: AgreeAt(ms, ns, k)
  }

  ghost predicate AgreeAt(ms: seq<Member>, ns: seq<Member>, k: string) {
    && (HasKey(ms, k) <==> HasKey(ns, k))
    && (HasKey(ms, k) && HasKey(ns, k) ==> Normalize(ValueAt(ms, k)) == Normalize(ValueAt(ns, k)))
  }

  lemma AgreeSortsAlike(ms: seq<Member>, ns: seq<Member>)
    requires UniqueKeys(ms) && UniqueKeys(ns)
    ensures Agree(ms, ns) <==> SortByKey(NormalizeMembers(ms)) == SortByKey(NormalizeMembers(ns))
  {
    hide HasKey;
    hide Normalize;
    hide NormalizeMembers;
    hide SortByKey;
    SortedAlike(ms, ns);
    forall k, nv
      ensures Member(k, nv) in NormalizeMembers(ms) <==> HasKey(ms, k) && nv == Normalize(ValueAt(ms, k))
      ensures Member(k, nv) in NormalizeMembers(ns) <==> HasKey(ns, k) && nv == Normalize(ValueAt(ns, k))
    {
      NormalizedMember(ms, k, nv);
      NormalizedMember(ns, k, nv);
    }
    if Agree(ms, ns) {
      forall k, nv ensures Member(k, nv) in NormalizeMembers(ms) <==> Member(k, nv) in NormalizeMembers(ns) {
        assert AgreeAt(ms, ns, k);
      }
    } else {
      var k :| !AgreeAt(ms, ns, k);
      var nv := if HasKey(ms, k) then Normalize(ValueAt(ms, k)) else Normalize(ValueAt(ns, k));
      assert !(Member(k, nv) in NormalizeMembers(ms) <==> Member(k, nv) in NormalizeMembers(ns));
    }
  }

  lemma {:induction false} MembersAlike(ms: seq<Member>, ns: seq<Member>)
    requires WellFormed(Obj(ms)) && WellFormed(Obj(ns))
    ensures Same(Obj(ms), Obj(ns)) <==> Normalize(Obj(ms)) == Normalize(Obj(ns))
    decreases ms
  {
    forall k ensures SameAt(ms, ns, k) <==> AgreeAt(ms, ns, k) {
      if HasKey(ms, k) && HasKey(ns, k) {
        SameMeansNormalizeAlike(ms[IndexOf(ms, k)].value, ns[IndexOf(ns, k)].value);
      }
    }
    SameByKey(ms, ns);
    AgreeSortsAlike(ms, ns);
  }

  ghost predicate SameAt(ms: seq<Member>, ns: seq<Member>, k: string) {
    && (HasKey(ms, k) <==> HasKey(ns, k))
    && (HasKey(ms, k) && HasKey(ns, k) ==> Same(ValueAt(ms, k), ValueAt(ns, k)))
  }

  lemma SameByKey(ms: seq<Member>, ns: seq<Member>)
    requires UniqueKeys(ms)
    ensures Same(Obj(ms), Obj(ns)) <==> forall k :: SameAt(ms, ns, k)
  {
    hide HasKey;
    hide IndexOf;
    if Same(Obj(ms), Obj(ns)) {
      forall k ensures SameAt(ms, ns, k) {
        assert HasKey(ms, k) ==> ms[IndexOf(ms, k)].key == k;
      }
    }
    if forall k :: SameAt(ms, ns, k) {
      forall k ensures HasKey(ms, k) <==> HasKey(ns, k) {
        assert SameAt(ms, ns, k);
      }
      forall i | 0 <= i < |ms| && HasKey(ns, ms[i].key)
        ensures Same(ms[i].value, ns[IndexOf(ns, ms[i].key)].value)
      {
        IndexOfUnique(ms, i);
        assert SameAt(ms, ns, ms[i].key);
      }
    }
  }
}
