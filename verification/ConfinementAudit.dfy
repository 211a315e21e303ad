/** The audit of an output buffer: the first byte at which some pattern ends, and
    the longest pattern that ends there. */
module ConfinementAudit {
  import opened Octets
  import opened Wrappers
  import opened Patterns

  datatype Violation = Violation(secretName: Bytes, position: nat)

  /** The longest pattern that starts at or after `i` and ends exactly at `end`. */
  function LongestEnding(d: Dictionary, s: Bytes, i: nat, end: nat): (r: Option<PatternEntry>)
    requires i <= end <= |s|
    ensures r.Some? ==> |r.value.bytes| <= end - i
    decreases end - i
  {
    if i == end then None
    else
      PatternForSound(d, s[i..end]);
      var p := PatternFor(d, s[i..end]);
      if p.Some? then p else LongestEnding(d, s, i + 1, end)
  }

  function FirstViolation(d: Dictionary, s: Bytes, end: nat): Option<Violation>
    requires end <= |s|
    decreases |s| - end
  {
    var p := LongestEnding(d, s, 0, end);
    if p.Some? then Some(Violation(p.value.secretName, end - |p.value.bytes|))
    else if end == |s| then None
    else FirstViolation(d, s, end + 1)
  }

  /** Some pattern ends at `end`. */
  ghost predicate EndsHere(d: Dictionary, s: Bytes, end: nat) {
    exists p, i: nat :: p in d && i + |p.bytes| == end && OccursAt(p.bytes, s, i)
  }

  lemma {:induction false} LongestEndingIsComplete(d: Dictionary, s: Bytes, i: nat, end: nat, q: PatternEntry)
    requires i <= end <= |s| && q in d && q.bytes != []
    requires i + |q.bytes| <= end && OccursAt(q.bytes, s, end - |q.bytes|)
    ensures LongestEnding(d, s, i, end).Some?
    ensures |q.bytes| <= |LongestEnding(d, s, i, end).value.bytes|
    decreases end - i
  {
    PatternForSound(d, s[i..end]);
    if PatternFor(d, s[i..end]).Some? {
    } else {
      assert q.bytes == s[end - |q.bytes|..end];
      LongestEndingIsComplete(d, s, i + 1, end, q);
    }
  }

  lemma {:induction false} LongestEndingIsSound(d: Dictionary, s: Bytes, i: nat, end: nat)
    requires i <= end <= |s| && LongestEnding(d, s, i, end).Some?
    ensures var p := LongestEnding(d, s, i, end).value;
            p in d && OccursAt(p.bytes, s, end - |p.bytes|)
    decreases end - i
  {
    PatternForSound(d, s[i..end]);
    if PatternFor(d, s[i..end]).Some? {
      assert s[i..end] <= s[i..];
    } else {
      LongestEndingIsSound(d, s, i + 1, end);
    }
  }

  /** The audit passes exactly the pattern-free buffers; otherwise it reports an
      occurrence that ends first, naming its secret and its first byte. */
  lemma {:induction false} AuditIsExact(d: Dictionary, s: Bytes, end: nat)
    requires WellFormed(d) && end <= |s|
    requires forall e: nat :: e < end ==> !EndsHere(d, s, e)
    ensures match FirstViolation(d, s, end)
            case None => PatternFree(d, s)
            case Some(v) =>
              exists p :: p in d && p.secretName == v.secretName && OccursAt(p.bytes, s, v.position)
                && forall e: nat :: e < v.position + |p.bytes| ==> !EndsHere(d, s, e)
    decreases |s| - end
  {
    var r := LongestEnding(d, s, 0, end);
    if r.Some? {
      LongestEndingIsSound(d, s, 0, end);
    } else {
      forall p, i: nat | p in d && i + |p.bytes| == end && OccursAt(p.bytes, s, i)
        ensures false
      {
        LongestEndingIsComplete(d, s, 0, end, p);
      }
      if end < |s| {
        AuditIsExact(d, s, end + 1);
      } else {
        forall p, i: nat | p in d && OccursAt(p.bytes, s, i)
          ensures false
        {
          assert EndsHere(d, s, i + |p.bytes|);
        }
      }
    }
  }
}
