/** The bytes that a manifest signature covers: the manifest without its three
    top-level signature fields, in canonical text. */
module ManifestPayload {
  import opened Wrappers
  import opened JsonValues
  import opened JsonEquality
  import opened CanonicalJson
  import opened JsonReader
  import opened CanonicalTheorems

  datatype ManifestError = ParseFailed | MissingSignature

  /** The text whose signature is verified, and the signature found in the manifest. */
  datatype Signed = Signed(payload: string, signature: string)

  const SIGNATURE := "signature"
  const SIGNATURE_MLDSA65 := "signature_mldsa65"
  const SIGNATURE_SLHDSA128S := "signature_slhdsa128s"

  predicate IsSignatureField(k: string) {
    k == SIGNATURE || k == SIGNATURE_MLDSA65 || k == SIGNATURE_SLHDSA128S
  }

  /** Member lookup; a value that is not an object has no members. */
  function Get(v: Json, k: string): Option<Json> {
    if v.Obj? && HasKey(v.members, k) then Some(ValueAt(v.members, k)) else None
  }

  /** The ML-DSA-65 field if it is present at all, otherwise the plain field; and only
      if what is found is a string. */
  function FindSignature(v: Json): Option<string> {
    var field := if Get(v, SIGNATURE_MLDSA65).Some? then Get(v, SIGNATURE_MLDSA65) else Get(v, SIGNATURE);
    match field
    case Some(Str(s)) => Some(s)
    case _ => None
  }

  function Remove(ms: seq<Member>, k: string): seq<Member> {
    if ms == [] then [] else (if ms[0].key == k then [] else [ms[0]]) + Remove(ms[1..], k)
  }

  function WithoutField(v: Json, k: string): Json {
    if v.Obj? then Obj(Remove(v.members, k)) else v
  }

  /** The manifest without its signature fields. */
  function Strip(v: Json): Json {
    WithoutField(WithoutField(WithoutField(v, SIGNATURE), SIGNATURE_MLDSA65), SIGNATURE_SLHDSA128S)
  }

  /** The manifest held in memory while it is checked. */
  class ManifestCell {
    var value: Json

    constructor (v: Json)
      ensures value == v
    {
      value := v;
    }

    method RemoveField(k: string)
      modifies this
      ensures value == WithoutField(old(value), k)
    {
      if value.Obj? {
        value := Obj(Remove(value.members, k));
      }
    }
  }

  /** What the manifest text gives to verify. */
  function ToVerify(text: string): Result<Signed, ManifestError> {
    match Parse(text)
    case None => Failure(ParseFailed)
    case Some(v) =>
      match FindSignature(v)
      case None => Failure(MissingSignature)
      case Some(sig) => Success(Signed(Canonical(Strip(v)), sig))
  }

  /** The manifest branch of the verifier, up to the signature check itself: the signature
      that is checked, and the bytes that it is checked against. */
  method PayloadToVerify(text: string) returns (r: Result<Signed, ManifestError>)
    ensures r == ToVerify(text)
    ensures r == Failure(ParseFailed) <==> Parse(text) == None
    ensures r.Success? ==>
              && Parse(text).value.Obj?
              && Carries(Parse(text).value.members, r.value.signature)
              && forall rest | SignedPart(Parse(text).value.members, rest) :: r.value.payload == Canonical(Obj(rest))
    ensures r == Failure(MissingSignature) ==> Parse(text).Some?
    ensures r == Failure(MissingSignature) && Parse(text).value.Obj? ==>
              forall sig :: !Carries(Parse(text).value.members, sig)
  {
    PayloadExactly(text);
    var parsed := Parse(text);
    if parsed.None? {
      return Failure(ParseFailed);
    }
    var manifest := new ManifestCell(parsed.value);
    var sig := FindSignature(manifest.value);
    if sig.None? {
      return Failure(MissingSignature);
    }
    if manifest.value.Obj? {
      manifest.RemoveField(SIGNATURE);
      manifest.RemoveField(SIGNATURE_MLDSA65);
      manifest.RemoveField(SIGNATURE_SLHDSA128S);
    }
    ReadIsWellFormed(text);
    StripIsWellFormed(parsed.value);
    var payload := CanonicalText(manifest.value);
    return Success(Signed(payload, sig.value));
  }

  /** The manifest object has this signature: under the ML-DSA-65 name, or, if nothing at
      all has that name, under the plain one. */
  ghost predicate Carries(ms: seq<Member>, sig: string) {
    || Member("signature_mldsa65", Str(sig)) in ms
    || (Member("signature", Str(sig)) in ms && forall m :: m in ms ==> m.key != "signature_mldsa65")
  }

  /** These are the members that are not signatures, in any order. */
  ghost predicate SignedPart(ms: seq<Member>, rest: seq<Member>) {
    && UniqueKeys(rest)
    && forall m :: m in rest <==>
         m in ms && m.key != "signature" && m.key != "signature_mldsa65" && m.key != "signature_slhdsa128s"
  }

  lemma GetIsMembership(ms: seq<Member>, k: string, sig: string)
    requires UniqueKeys(ms)
    ensures Get(Obj(ms), k) == Some(Str(sig)) <==> Member(k, Str(sig)) in ms
    ensures Get(Obj(ms), k) == None <==> forall m :: m in ms ==> m.key != k
  {
    LookupByMembership(ms, k, Str(sig));
    HasKeyAt(ms, k);
    if HasKey(ms, k) {
      assert ms[IndexOf(ms, k)] in ms;
    }
    if m :| m in ms && m.key == k {
      var i :| 0 <= i < |ms| && ms[i] == m;
    }
  }

  lemma FoundExactly(ms: seq<Member>, sig: string)
    requires UniqueKeys(ms)
    ensures FindSignature(Obj(ms)) == Some(sig) <==> Carries(ms, sig)
  {
    hide Get;
    GetIsMembership(ms, SIGNATURE_MLDSA65, sig);
    GetIsMembership(ms, SIGNATURE, sig);
  }

  lemma StrippedExactly(ms: seq<Member>)
    requires UniqueKeys(ms)
    ensures Strip(Obj(ms)).Obj? && SignedPart(ms, Strip(Obj(ms)).members)
  {
    hide Remove;
    RemoveShape(ms, SIGNATURE);
    RemoveShape(Remove(ms, SIGNATURE), SIGNATURE_MLDSA65);
    RemoveShape(Remove(Remove(ms, SIGNATURE), SIGNATURE_MLDSA65), SIGNATURE_SLHDSA128S);
  }

  /** Two lists of the same members with unique keys have the same canonical text. */
  lemma SamePartSameText(ms: seq<Member>, rest: seq<Member>, other: seq<Member>)
    requires SignedPart(ms, rest) && SignedPart(ms, other)
    ensures Canonical(Obj(rest)) == Canonical(Obj(other))
  {
    forall k, nv ensures Member(k, nv) in NormalizeMembers(rest) <==> Member(k, nv) in NormalizeMembers(other) {
      hide Normalize;
      NormalizedMember(rest, k, nv);
      NormalizedMember(other, k, nv);
      if HasKey(rest, k) {
        LookupByMembership(rest, k, ValueAt(rest, k));
        LookupByMembership(other, k, ValueAt(rest, k));
      }
      if HasKey(other, k) {
        LookupByMembership(other, k, ValueAt(other, k));
        LookupByMembership(rest, k, ValueAt(other, k));
      }
    }
    hide Text;
    SortedAlike(rest, other);
  }

  /** For every text: what is verified, member by member. Text that is no JSON fails as
      such; a value that is no object, or an object whose signature field is absent or no
      string, has no signature; every other object gives its signature and the canonical
      text of its other members. */
  lemma PayloadExactly(text: string)
    ensures match Parse(text)
            case None => ToVerify(text) == Failure(ParseFailed)
            case Some(Obj(ms)) =>
              && (forall rest, sig | SignedPart(ms, rest) && Carries(ms, sig) ::
                    ToVerify(text) == Success(Signed(Canonical(Obj(rest)), sig)))
              && (ToVerify(text).Success? ==> Carries(ms, ToVerify(text).value.signature))
              && (ToVerify(text).Failure? ==> ToVerify(text).error == MissingSignature)
              && exists rest :: SignedPart(ms, rest)
            case _ => ToVerify(text) == Failure(MissingSignature)
  {
    hide Canonical;
    hide Strip;
    ReadIsWellFormed(text);
    assert Parse(text).Some? ==> WellFormed(Parse(text).value);
    hide Parse;
    if Parse(text).Some? && Parse(text).value.Obj? {
      var ms := Parse(text).value.members;
      StrippedExactly(ms);
      forall sig ensures FindSignature(Obj(ms)) == Some(sig) <==> Carries(ms, sig) {
        FoundExactly(ms, sig);
      }
      hide FindSignature;
      forall rest | SignedPart(ms, rest) ensures Canonical(Obj(rest)) == Canonical(Strip(Obj(ms))) {
        SamePartSameText(ms, rest, Strip(Obj(ms)).members);
      }
    }
  }

  /** The signature that is taken from the text of a manifest, whatever else is in it. */
  lemma SignatureTakenExactly(ms: seq<Member>, sig: string)
    requires WellFormed(Obj(ms))
    ensures ToVerify(Text(Obj(ms))).Success? && ToVerify(Text(Obj(ms))).value.signature == sig <==>
              || Member("signature_mldsa65", Str(sig)) in ms
              || ((forall m :: m in ms ==> m.key != "signature_mldsa65") && Member("signature", Str(sig)) in ms)
    ensures ToVerify(Text(Obj(ms))).Failure? ==> ToVerify(Text(Obj(ms))).error == MissingSignature
  {
    hide ToVerify;
    hide Parse;
    hide Text;
    TextParses(Obj(ms));
    PayloadExactly(Text(Obj(ms)));
    if Carries(ms, sig) {
      var rest :| SignedPart(ms, rest);
    }
  }

  // ---- Removing fields ---------------------------------------------------------

  lemma {:induction false} RemoveShape(ms: seq<Member>, k: string)
    requires UniqueKeys(ms)
    ensures UniqueKeys(Remove(ms, k))
    ensures forall m :: m in Remove(ms, k) <==> m in ms && m.key != k
  {
    if ms == [] {
    } else {
      RemoveShape(ms[1..], k);
      assert ms == [ms[0]] + ms[1..];
      var rest := Remove(ms[1..], k);
      forall j | 0 <= j < |rest| ensures rest[j].key != ms[0].key {
        assert rest[j] in ms[1..];
        var i :| 0 <= i < |ms| - 1 && ms[1..][i] == rest[j];
        assert ms[i + 1].key != ms[0].key;
      }
    }
  }

  /** With unique keys, membership says what the lookup finds. */
  lemma LookupByMembership(ms: seq<Member>, k: string, v: Json)
    requires UniqueKeys(ms)
    ensures Member(k, v) in ms <==> HasKey(ms, k) && ValueAt(ms, k) == v
  {
    if Member(k, v) in ms {
      var i :| 0 <= i < |ms| && ms[i] == Member(k, v);
      IndexOfUnique(ms, i);
    }
    if HasKey(ms, k) && ValueAt(ms, k) == v {
      assert ms[IndexOf(ms, k)] == Member(k, v);
    }
  }

  /** After a removal the other keys are found as before. */
  lemma RemoveKeepsOthers(ms: seq<Member>, gone: string, k: string)
    requires UniqueKeys(ms)
    ensures UniqueKeys(Remove(ms, gone))
    ensures HasKey(Remove(ms, gone), k) <==> HasKey(ms, k) && k != gone
    ensures HasKey(Remove(ms, gone), k) ==> ValueAt(Remove(ms, gone), k) == ValueAt(ms, k)
  {
    RemoveShape(ms, gone);
    var rest := Remove(ms, gone);
    if HasKey(rest, k) {
      LookupByMembership(rest, k, ValueAt(rest, k));
      LookupByMembership(ms, k, ValueAt(rest, k));
    }
    if HasKey(ms, k) && k != gone {
      LookupByMembership(ms, k, ValueAt(ms, k));
      LookupByMembership(rest, k, ValueAt(ms, k));
    }
  }

  lemma StripKeepsOthers(ms: seq<Member>, k: string)
    requires UniqueKeys(ms)
    ensures var rest := Strip(Obj(ms)).members;
            && UniqueKeys(rest)
            && (HasKey(rest, k) <==> HasKey(ms, k) && !IsSignatureField(k))
            && (HasKey(rest, k) ==> ValueAt(rest, k) == ValueAt(ms, k))
  {
    hide Remove;
    hide HasKey;
    var a := Remove(ms, SIGNATURE);
    var b := Remove(a, SIGNATURE_MLDSA65);
    RemoveKeepsOthers(ms, SIGNATURE, k);
    RemoveKeepsOthers(a, SIGNATURE_MLDSA65, k);
    RemoveKeepsOthers(b, SIGNATURE_SLHDSA128S, k);
  }

  lemma {:induction false} RemoveKeepsWellFormed(ms: seq<Member>, k: string)
    requires WellFormed(Obj(ms))
    ensures WellFormed(Obj(Remove(ms, k)))
  {
    RemoveShape(ms, k);
    var rest := Remove(ms, k);
    forall i | 0 <= i < |rest| ensures WellFormed(rest[i].value) {
      assert rest[i] in rest;
      var j :| 0 <= j < |ms| && ms[j] == rest[i];
    }
  }

  lemma StripIsWellFormed(v: Json)
    requires WellFormed(v)
    ensures WellFormed(Strip(v))
  {
    if v.Obj? {
      RemoveKeepsWellFormed(v.members, SIGNATURE);
      RemoveKeepsWellFormed(Remove(v.members, SIGNATURE), SIGNATURE_MLDSA65);
      RemoveKeepsWellFormed(Remove(Remove(v.members, SIGNATURE), SIGNATURE_MLDSA65), SIGNATURE_SLHDSA128S);
    }
  }

  // ---- What a signature covers -------------------------------------------------

  /** The two manifests agree, up to member order, on everything but the signature fields. */
  ghost predicate AgreeOutsideSignatures(ms: seq<Member>, ns: seq<Member>) {
    forall k :: !IsSignatureField(k) ==> SameAt(ms, ns, k)
  }

  /** Two manifest objects have the same bytes to verify exactly when they agree on
      everything other than the three top-level signature fields. */
  lemma PayloadCoversTheRest(ms: seq<Member>, ns: seq<Member>)
    requires WellFormed(Obj(ms)) && WellFormed(Obj(ns))
    ensures Canonical(Strip(Obj(ms))) == Canonical(Strip(Obj(ns))) <==> AgreeOutsideSignatures(ms, ns)
  {
    hide Strip;
    hide HasKey;
    hide Canonical;
    hide IsSignatureField;
    var v, w := Strip(Obj(ms)), Strip(Obj(ns));
    StripIsWellFormed(Obj(ms));
    StripIsWellFormed(Obj(ns));
    CanonicalDecidesSame(v, w);
    StripIsObject(ms);
    StripIsObject(ns);
    SameByKey(v.members, w.members);
    forall k ensures SameAt(v.members, w.members, k) <==> IsSignatureField(k) || SameAt(ms, ns, k) {
      StripKeepsOthers(ms, k);
      StripKeepsOthers(ns, k);
    }
    if AgreeOutsideSignatures(ms, ns) {
      forall k ensures SameAt(v.members, w.members, k) {
        assert IsSignatureField(k) || SameAt(ms, ns, k);
      }
    }
    if forall k :: SameAt(v.members, w.members, k) {
      forall k | !IsSignatureField(k) ensures SameAt(ms, ns, k) {
        assert SameAt(v.members, w.members, k);
      }
    }
  }

  lemma StripIsObject(ms: seq<Member>)
    requires UniqueKeys(ms)
    ensures Strip(Obj(ms)).Obj? && UniqueKeys(Strip(Obj(ms)).members)
  {
    StripKeepsOthers(ms, "");
  }

  lemma {:induction false} RemoveAfterPut(ms: seq<Member>, m: Member)
    ensures Remove(Put(ms, m), m.key) == Remove(ms, m.key)
  {
    if ms == [] {
    } else if ms[0].key != m.key {
      RemoveAfterPut(ms[1..], m);
    }
  }

  lemma {:induction false} RemoveCommutes(ms: seq<Member>, a: string, b: string)
    ensures Remove(Remove(ms, a), b) == Remove(Remove(ms, b), a)
  {
    if ms == [] {
    } else {
      RemoveCommutes(ms[1..], a, b);
      RemoveFirst(ms, a);
      RemoveFirst(ms, b);
    }
  }

  lemma RemoveFirst(ms: seq<Member>, k: string)
    requires ms != []
    ensures ms[0].key == k ==> Remove(ms, k) == Remove(ms[1..], k)
    ensures ms[0].key != k ==> Remove(ms, k) != [] && Remove(ms, k)[0] == ms[0] && Remove(ms, k)[1..] == Remove(ms[1..], k)
  {
  }

  /** Adding, changing or removing a signature field never changes the payload. */
  lemma SignatureFieldsAreNotCovered(ms: seq<Member>, m: Member)
    requires IsSignatureField(m.key)
    ensures Strip(Obj(Put(ms, m))) == Strip(Obj(ms))
    ensures Strip(Obj(Remove(ms, m.key))) == Strip(Obj(ms))
  {
    hide Remove;
    hide Put;
    StripInAnyOrder(ms, m.key);
    StripInAnyOrder(Put(ms, m), m.key);
    StripInAnyOrder(Remove(ms, m.key), m.key);
    RemoveAfterPut(ms, m);
    RemoveTwice(ms, m.key);
  }

  lemma {:induction false} RemoveTwice(ms: seq<Member>, k: string)
    ensures Remove(Remove(ms, k), k) == Remove(ms, k)
  {
    if ms == [] {
    } else {
      RemoveTwice(ms[1..], k);
      RemoveFirst(ms, k);
    }
  }

  /** The fields other than `k`. */
  function OtherFields(k: string): (string, string) {
    if k == SIGNATURE then (SIGNATURE_MLDSA65, SIGNATURE_SLHDSA128S)
    else if k == SIGNATURE_MLDSA65 then (SIGNATURE, SIGNATURE_SLHDSA128S)
    else (SIGNATURE, SIGNATURE_MLDSA65)
  }

  lemma StripInAnyOrder(ms: seq<Member>, k: string)
    requires IsSignatureField(k)
    ensures var (a, b) := OtherFields(k);
            Strip(Obj(ms)) == Obj(Remove(Remove(Remove(ms, k), a), b))
  {
    hide Remove;
    RemoveCommutes(ms, SIGNATURE, SIGNATURE_MLDSA65);
    RemoveCommutes(Remove(ms, SIGNATURE), SIGNATURE_MLDSA65, SIGNATURE_SLHDSA128S);
    RemoveCommutes(ms, SIGNATURE, SIGNATURE_SLHDSA128S);
  }

  // ---- From signer to verifier ---------------------------------------------------

  lemma TextParses(v: Json)
    requires WellFormed(v)
    ensures Parse(Text(v)) == Some(v)
  {
    hide ReadValue;
    hide Text;
    TextRead(v, "");
    assert Text(v) + "" == Text(v);
  }

  /** Values that agree up to member order are the same string or are no strings. */
  lemma SameString(v: Json, w: Json)
    requires Same(v, w)
    ensures v.Str? || w.Str? ==> v == w
  {
  }

  lemma SameSignature(ms: seq<Member>, ns: seq<Member>)
    requires forall k :: SameAt(ms, ns, k)
    ensures FindSignature(Obj(ms)) == FindSignature(Obj(ns))
  {
    hide HasKey;
    hide Same;
    forall k | k in {SIGNATURE, SIGNATURE_MLDSA65}
      ensures HasKey(ms, k) <==> HasKey(ns, k)
      ensures HasKey(ms, k) && (ValueAt(ms, k).Str? || ValueAt(ns, k).Str?) ==> ValueAt(ms, k) == ValueAt(ns, k)
    {
      assert SameAt(ms, ns, k);
      if HasKey(ms, k) {
        SameString(ValueAt(ms, k), ValueAt(ns, k));
      }
    }
  }

  /** Manifests that agree up to member order are verified alike, whichever order their
      text has. */
  lemma MemberOrderIsIrrelevant(v: Json, w: Json)
    requires WellFormed(v) && WellFormed(w) && Same(v, w)
    ensures ToVerify(Text(v)) == ToVerify(Text(w))
  {
    hide Parse;
    hide Text;
    hide FindSignature;
    hide Canonical;
    TextParses(v);
    TextParses(w);
    if v.Obj? {
      ObjectsVerifyAlike(v.members, w.members);
    } else {
      NoSignature(v);
      NoSignature(w);
    }
  }

  lemma ObjectsVerifyAlike(ms: seq<Member>, ns: seq<Member>)
    requires WellFormed(Obj(ms)) && WellFormed(Obj(ns)) && Same(Obj(ms), Obj(ns))
    ensures FindSignature(Obj(ms)) == FindSignature(Obj(ns))
    ensures Canonical(Strip(Obj(ms))) == Canonical(Strip(Obj(ns)))
  {
    hide Same;
    hide Strip;
    hide Canonical;
    hide FindSignature;
    SameByKey(ms, ns);
    SameSignature(ms, ns);
    PayloadCoversTheRest(ms, ns);
    assert AgreeOutsideSignatures(ms, ns);
  }

  lemma NoSignature(v: Json)
    requires !v.Obj?
    ensures FindSignature(v) == None
  {
  }

  lemma PutLast(ms: seq<Member>, m: Member)
    requires forall i :: 0 <= i < |ms| ==> ms[i].key != m.key
    ensures HasKey(Put(ms, m), m.key) && ValueAt(Put(ms, m), m.key) == m.value
    ensures forall k :: k != m.key ==> (HasKey(Put(ms, m), k) <==> HasKey(ms, k))
  {
    PutNew(ms, m);
    hide Put;
    hide HasKey;
    hide IndexOf;
    var all := ms + [m];
    assert all[|ms|].key == m.key;
    HasKeyAt(all, m.key);
    forall k | k != m.key ensures HasKey(all, k) <==> HasKey(ms, k) {
      HasKeyAt(all, k);
      HasKeyAt(ms, k);
      assert HasKey(ms, k) ==> exists i :: 0 <= i < |ms| && all[i].key == k;
    }
  }

  lemma {:induction false} NothingToRemove(ms: seq<Member>, k: string)
    requires forall i :: 0 <= i < |ms| ==> ms[i].key != k
    ensures Remove(ms, k) == ms && !HasKey(ms, k)
  {
    if ms == [] {
    } else {
      NothingToRemove(ms[1..], k);
      assert ms == [ms[0]] + ms[1..];
    }
  }

  /** What a signer puts into a manifest is what the verifier takes out of its text: the
      signature, and the canonical text of the manifest without it. */
  lemma SignedManifestReadsBack(ms: seq<Member>, k: string, sig: string)
    requires WellFormed(Obj(ms)) && forall i :: 0 <= i < |ms| ==> !IsSignatureField(ms[i].key)
    requires k == SIGNATURE || k == SIGNATURE_MLDSA65
    ensures var signed := Obj(Put(ms, Member(k, Str(sig))));
            && ToVerify(Text(signed)) == Success(Signed(Canonical(Obj(ms)), sig))
            && ToVerify(Canonical(signed)) == Success(Signed(Canonical(Obj(ms)), sig))
  {
    hide Parse;
    hide Text;
    hide Canonical;
    hide Put;
    hide WellFormed;
    hide Strip;
    hide FindSignature;
    var signed := Obj(Put(ms, Member(k, Str(sig))));
    SignedIsWellFormed(ms, Member(k, Str(sig)));
    SignatureIsFound(ms, k, sig);
    TextParses(signed);
    SignatureFieldsAreNotCovered(ms, Member(k, Str(sig)));
    NothingToStrip(ms);
    CanonicalIsText(signed);
    MemberOrderIsIrrelevant(signed, Normalize(signed));
  }

  lemma SignedIsWellFormed(ms: seq<Member>, m: Member)
    requires WellFormed(Obj(ms)) && m.value.Str? && forall i :: 0 <= i < |ms| ==> ms[i].key != m.key
    ensures WellFormed(Obj(Put(ms, m)))
  {
    hide Put;
    PutNew(ms, m);
  }

  lemma SignatureIsFound(ms: seq<Member>, k: string, sig: string)
    requires forall i :: 0 <= i < |ms| ==> !IsSignatureField(ms[i].key)
    requires k == SIGNATURE || k == SIGNATURE_MLDSA65
    ensures FindSignature(Obj(Put(ms, Member(k, Str(sig))))) == Some(sig)
  {
    hide Put;
    hide HasKey;
    PutLast(ms, Member(k, Str(sig)));
    NothingToRemove(ms, SIGNATURE_MLDSA65);
  }

  lemma NothingToStrip(ms: seq<Member>)
    requires forall i :: 0 <= i < |ms| ==> !IsSignatureField(ms[i].key)
    ensures Strip(Obj(ms)) == Obj(ms)
  {
    hide Remove;
    NothingToRemove(ms, SIGNATURE);
    NothingToRemove(ms, SIGNATURE_MLDSA65);
    NothingToRemove(ms, SIGNATURE_SLHDSA128S);
  }

  /** The canonical text is a text of the same value. */
  lemma CanonicalIsText(v: Json)
    requires WellFormed(v)
    ensures Canonical(v) == Text(Normalize(v))
    ensures WellFormed(Normalize(v)) && Same(v, Normalize(v))
  {
    NormalizeIsWellFormed(v);
    NormalizeIsStable(v);
    SameMeansNormalizeAlike(v, Normalize(v));
  }
}
