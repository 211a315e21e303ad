/** JSON values with integer numbers, and what it means for two of them to agree up
    to the order of object members. */
module JsonValues {
  import opened TextOrder

  datatype Json =
    | Null
    | Bool(b: bool)
    | Num(n: int)
    | Str(s: string)
    | Arr(items: seq<Json>)
    | Obj(members: seq<Member>)

  datatype Member = Member(key: string, value: Json)

  predicate HasKey(ms: seq<Member>, k: string) {
    ms != [] && (ms[0].key == k || HasKey(ms[1..], k))
  }

  /** The position of a key in a member list. */
  function IndexOf(ms: seq<Member>, k: string): (i: nat)
    requires HasKey(ms, k)
    ensures i < |ms| && ms[i].key == k
  {
    if ms[0].key == k then 0 else 1 + IndexOf(ms[1..], k)
  }

  ghost predicate UniqueKeys(ms: seq<Member>) {
    forall i, j :: 0 <= i < j < |ms| ==> ms[i].key != ms[j].key
  }

  /** Object keys are unique at every level, as a map of members guarantees. */
  ghost predicate WellFormed(v: Json)
    decreases v
  {
    match v
    case Arr(items) => forall i :: 0 <= i < |items| ==> WellFormed(items[i])
    case Obj(ms) => UniqueKeys(ms) && forall i :: 0 <= i < |ms| ==> WellFormed(ms[i].value)
    case _ => true
  }

  /** Equal up to the order of object members, at every level. */
  ghost predicate Same(v: Json, w: Json)
    decreases v
  {
    match v
    case Arr(items) =>
      w.Arr? && |items| == |w.items| && forall i :: 0 <= i < |items| ==> Same(items[i], w.items[i])
    case Obj(ms) =>
      && w.Obj?
      && (forall k :: HasKey(ms, k) <==> HasKey(w.members, k))
      && (forall i :: 0 <= i < |ms| && HasKey(w.members, ms[i].key) ==>
            Same(ms[i].value, w.members[IndexOf(w.members, ms[i].key)].value))
    case _ => v == w
  }

  lemma {:induction false} HasKeyAt(ms: seq<Member>, k: string)
    ensures HasKey(ms, k) <==> exists i :: 0 <= i < |ms| && ms[i].key == k
  {
    if ms == [] {
    } else {
      HasKeyAt(ms[1..], k);
      if HasKey(ms[1..], k) {
        var i :| 0 <= i < |ms| - 1 && ms[1..][i].key == k;
        assert ms[i + 1].key == k;
      }
      if i :| 0 < i < |ms| && ms[i].key == k {
        assert ms[1..][i - 1].key == k;
      }
    }
  }

  // ---- The order of keys ------------------------------------------------------

  ghost predicate Sorted(ms: seq<Member>) {
    forall i, j :: 0 <= i < j < |ms| ==> Less(ms[i].key, ms[j].key)
  }

  function InsertByKey(m: Member, ms: seq<Member>): seq<Member> {
    if ms == [] || Less(m.key, ms[0].key) then [m] + ms else [ms[0]] + InsertByKey(m, ms[1..])
  }

  function SortByKey(ms: seq<Member>): seq<Member> {
    if ms == [] then [] else InsertByKey(ms[0], SortByKey(ms[1..]))
  }

  /** The value with the members of every object sorted by key. */
  function Normalize(v: Json): Json
    decreases v
  {
    match v
    case Arr(items) => Arr(NormalizeItems(items))
    case Obj(ms) => Obj(SortByKey(NormalizeMembers(ms)))
    case _ => v
  }

  function NormalizeItems(items: seq<Json>): (r: seq<Json>)
    ensures |r| == |items|
    decreases items
  {
    if items == [] then [] else [Normalize(items[0])] + NormalizeItems(items[1..])
  }

  function NormalizeMembers(ms: seq<Member>): (r: seq<Member>)
    ensures |r| == |ms|
    decreases ms
  {
    if ms == [] then [] else [Member(ms[0].key, Normalize(ms[0].value))] + NormalizeMembers(ms[1..])
  }

  lemma {:induction false} NormalizeItemsAt(items: seq<Json>, i: nat)
    requires i < |items|
    ensures NormalizeItems(items)[i] == Normalize(items[i])
  {
    if i == 0 {
    } else {
      NormalizeItemsAt(items[1..], i - 1);
    }
  }

  lemma {:induction false} NormalizeMembersAt(ms: seq<Member>, i: nat)
    requires i < |ms|
    ensures NormalizeMembers(ms)[i] == Member(ms[i].key, Normalize(ms[i].value))
  {
    if i == 0 {
    } else {
      NormalizeMembersAt(ms[1..], i - 1);
    }
  }

  lemma {:induction false} InsertContents(m: Member, ms: seq<Member>)
    ensures |InsertByKey(m, ms)| == |ms| + 1
    ensures forall x :: x in InsertByKey(m, ms) <==> x == m || x in ms
  {
    if ms == [] {
    } else if !Less(m.key, ms[0].key) {
      InsertContents(m, ms[1..]);
      assert ms == [ms[0]] + ms[1..];
    }
  }

  lemma {:induction false} InsertSorted(m: Member, ms: seq<Member>)
    requires Sorted(ms) && forall x :: x in ms ==> x.key != m.key
    ensures Sorted(InsertByKey(m, ms))
  {
    if ms == [] {
    } else if Less(m.key, ms[0].key) {
      forall j | 0 <= j < |ms| ensures Less(m.key, ms[j].key) {
        if j > 0 {
          LessTransitive(m.key, ms[0].key, ms[j].key);
        }
      }
    } else {
      assert ms[0] in ms;
      LessTotal(m.key, ms[0].key);
      InsertSorted(m, ms[1..]);
      InsertContents(m, ms[1..]);
      var rest := InsertByKey(m, ms[1..]);
      forall j | 0 <= j < |rest| ensures Less(ms[0].key, rest[j].key) {
        assert rest[j] in rest;
        if rest[j] in ms[1..] {
          var i :| 0 <= i < |ms| - 1 && ms[1..][i] == rest[j];
          assert Less(ms[0].key, ms[i + 1].key);
        }
      }
    }
  }

  /** Sorting keeps the members and puts their keys in strictly increasing order. */
  lemma {:induction false} SortIsRight(ms: seq<Member>)
    requires UniqueKeys(ms)
    ensures Sorted(SortByKey(ms)) && |SortByKey(ms)| == |ms|
    ensures forall x :: x in SortByKey(ms) <==> x in ms
  {
    if ms == [] {
    } else {
      SortIsRight(ms[1..]);
      forall x | x in SortByKey(ms[1..]) ensures x.key != ms[0].key {
        var i :| 0 <= i < |ms| - 1 && ms[1..][i] == x;
        assert ms[0].key != ms[i + 1].key;
      }
      InsertSorted(ms[0], SortByKey(ms[1..]));
      InsertContents(ms[0], SortByKey(ms[1..]));
      assert ms == [ms[0]] + ms[1..];
    }
  }

  lemma SortedIsUnique(ms: seq<Member>)
    requires Sorted(ms)
    ensures UniqueKeys(ms)
  {
    forall i, j | 0 <= i < j < |ms| ensures ms[i].key != ms[j].key {
      LessTotal(ms[i].key, ms[j].key);
    }
  }

  /** A sorted list is determined by its members. */
  lemma {:induction false} SortedDetermined(a: seq<Member>, b: seq<Member>)
    requires Sorted(a) && Sorted(b) && forall x :: x in a <==> x in b
    ensures a == b
  {
    FirstIsMember(b);
    if a == [] {
    } else {
      assert a[0] in b;
      assert b != [] && b[0] in a;
      FirstIsLeast(a, b[0]);
      FirstIsLeast(b, a[0]);
      LessTotal(a[0].key, b[0].key);
      assert a[0] == b[0];
      TailContents(a);
      TailContents(b);
      SortedDetermined(a[1..], b[1..]);
      assert a == [a[0]] + a[1..] && b == [b[0]] + b[1..];
    }
  }

  lemma FirstIsMember(b: seq<Member>)
    ensures b != [] ==> b[0] in b
  {
  }

  lemma FirstIsLeast(a: seq<Member>, x: Member)
    requires Sorted(a) && x in a
    ensures a[0] == x || Less(a[0].key, x.key)
  {
    var i :| 0 <= i < |a| && a[i] == x;
    if i > 0 {
      assert Less(a[0].key, a[i].key);
    }
  }

  lemma TailContents(a: seq<Member>)
    requires Sorted(a) && a != []
    ensures Sorted(a[1..]) && forall x :: x in a[1..] <==> x in a && x != a[0]
  {
    forall x | x in a[1..] ensures x in a && x != a[0] {
      var i :| 0 <= i < |a| - 1 && a[1..][i] == x;
      assert Less(a[0].key, a[i + 1].key);
      LessTotal(a[0].key, x.key);
    }
    forall x | x in a && x != a[0] ensures x in a[1..] {
      var i :| 0 <= i < |a| && a[i] == x;
      assert a[1..][i - 1] == x;
    }
  }
}
