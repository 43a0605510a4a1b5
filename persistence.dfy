/** Contact persistence: how a contact found this frame inherits the
    accumulated impulses of a stored contact with the same feature. */
module Persistence {
  import opened Contacts

  /** The lowest index of a contact in `live` whose feature is `f`, or -1
      when there is none. */
  function MatchIndex(live: seq<Contact>, f: FeaturePair): (k: int)
    ensures -1 <= k < |live|
    ensures 0 <= k ==> live[k].feature == f
    ensures forall j :: 0 <= j < |live| && (k == -1 || j < k) ==> live[j].feature != f
    decreases |live|
  {
    if |live| == 0 then -1
    else if live[0].feature == f then 0
    else
      var k := MatchIndex(live[1..], f);
      assert forall j :: 1 <= j < |live| ==> live[j] == live[1..][j - 1];
      if k == -1 then -1 else k + 1
  }

  /** The stored contact `live` and the new contact `c` merged: everything
      comes from `c` except that, when some stored contact has the same
      feature, the two accumulated impulses come from the first such one. */
  function WarmStarted(live: seq<Contact>, c: Contact): (r: Contact)
    ensures r.(accumulatedNormalImpulse := c.accumulatedNormalImpulse,
               accumulatedTangentImpulse := c.accumulatedTangentImpulse) == c
    ensures (forall j :: 0 <= j < |live| ==> live[j].feature != c.feature) ==> r == c
    ensures forall k :: 0 <= k < |live| && live[k].feature == c.feature &&
                        (forall j :: 0 <= j < k ==> live[j].feature != c.feature) ==>
                        r.accumulatedNormalImpulse == live[k].accumulatedNormalImpulse &&
                        r.accumulatedTangentImpulse == live[k].accumulatedTangentImpulse
  {
    var k := MatchIndex(live, c.feature);
    if k > -1 then
      c.(accumulatedNormalImpulse := live[k].accumulatedNormalImpulse,
         accumulatedTangentImpulse := live[k].accumulatedTangentImpulse)
    else
      c
  }
}
