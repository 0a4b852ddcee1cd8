/** The confidence gate over a batch's extraction records. */
module DataGateway {
  import opened Options

  const THRESHOLD: real := 0.85

  /** One extraction record with its supplier's type; `fields` are the keys that were parsed. */
  datatype Record = Record(confidences: map<string, real>, confirmed: bool, providerType: string, fields: set<string>)

  /** The required fields per provider type. A type without a row requires nothing. */
  type Requirements = map<string, set<string>>

  /** An untyped record is not checked against any requirement. */
  predicate FieldsComplete(r: Record, req: Requirements) {
    r.providerType == "" || r.providerType !in req || req[r.providerType] <= r.fields
  }

  predicate Confident(r: Record) {
    forall k | k in r.confidences :: r.confidences[k] >= THRESHOLD
  }

  /** What the gate is meant to let through: something was extracted, and every record is sound. */
  ghost predicate Passes(records: seq<Record>, req: Requirements) {
    records != [] && forall r | r in records :: Confident(r) && r.confirmed && FieldsComplete(r, req)
  }

  /** x is the least confidence stated anywhere, or 1 when none is below 1. */
  ghost predicate IsLowest(records: seq<Record>, x: real) {
    && x <= 1.0
    && (forall r, k | r in records && k in r.confidences :: x <= r.confidences[k])
    && (x == 1.0 || exists r, k :: r in records && k in r.confidences && x == r.confidences[k])
  }

  datatype Gate = Gate(lowest: real, unconfirmed: nat, hasMissing: bool, lowConfidence: bool)

  method Least(m: map<string, real>) returns (x: real)
    requires m != map[]
    ensures (exists k :: k in m && x == m[k]) && forall k | k in m :: x <= m[k]
  {
    var k0 :| k0 in m;
    x := m[k0];
    var rest := m.Keys - {k0};
    while rest != {}
      invariant rest <= m.Keys
      invariant exists k :: k in m && x == m[k]
      invariant forall k | k in m && k !in rest :: x <= m[k]
      decreases rest
    {
      var k :| k in rest;
      if m[k] < x {
        x := m[k];
      }
      rest := rest - {k};
    }
  }

  method MissingFields(r: Record, req: Requirements) returns (missing: bool)
    requires r.providerType != ""
    ensures missing <==> !FieldsComplete(r, req)
    ensures missing <==> r.providerType in req && exists f :: f in req[r.providerType] && f !in r.fields
  {
    var required := if r.providerType in req then req[r.providerType] else {};
    var gap := required - r.fields;
    assert forall f | f in required :: f in r.fields || f in gap;
    assert forall f | f in gap :: f in required && f !in r.fields;
    missing := gap != {};
  }

  function UnconfirmedAt(records: seq<Record>): set<nat> { set i: nat | i < |records| && !records[i].confirmed }

  lemma UnconfirmedStep(records: seq<Record>, r: Record)
    ensures |UnconfirmedAt(records + [r])| == |UnconfirmedAt(records)| + if r.confirmed then 0 else 1
  {
    var now, before := UnconfirmedAt(records + [r]), UnconfirmedAt(records);
    assert now == if r.confirmed then before else before + {|records|};
  }

  lemma NobodyUnconfirmed(records: seq<Record>)
    ensures |UnconfirmedAt(records)| == 0 <==> forall r | r in records :: r.confirmed
  {
    if |UnconfirmedAt(records)| == 0 {
      forall r | r in records ensures r.confirmed {
        var i: nat :| i < |records| && records[i] == r;
        assert i !in UnconfirmedAt(records);
      }
    } else {
      var i :| i in UnconfirmedAt(records);
      assert records[i] in records;
    }
  }

  /** The aggregation loop and its verdict. An empty record list is answered before the loop runs. */
  method RunGate(records: seq<Record>, req: Requirements) returns (g: Gate)
    requires records != []
    ensures IsLowest(records, g.lowest)
    ensures !g.lowConfidence <==> Passes(records, req)
    ensures !g.lowConfidence ==> THRESHOLD <= g.lowest
    ensures g.unconfirmed == |UnconfirmedAt(records)|
    ensures g.hasMissing <==> exists r :: r in records && !FieldsComplete(r, req)
  {
    var lowest, unconfirmed, hasMissing := 1.0, 0, false;
    for i := 0 to |records|
      invariant IsLowest(records[..i], lowest)
      invariant unconfirmed == |UnconfirmedAt(records[..i])|
      invariant !hasMissing <==> forall r | r in records[..i] :: FieldsComplete(r, req)
    {
      var r := records[i];
      assert records[..i + 1] == records[..i] + [r];
      ghost var before := lowest;
      if r.confidences != map[] {
        var least := Least(r.confidences);
        lowest := if least < lowest then least else lowest;
      }
      LowestStep(records[..i], r, before, lowest);
      UnconfirmedStep(records[..i], r);
      if !r.confirmed {
        unconfirmed := unconfirmed + 1;
      }
      if r.providerType != "" {
        var missing := MissingFields(r, req);
        if missing {
          hasMissing := true;
        }
      }
    }
    assert records[..|records|] == records;
    NobodyUnconfirmed(records);
    var lowConfidence := lowest < THRESHOLD || unconfirmed > 0 || hasMissing;
    assert lowest >= THRESHOLD <==> forall r | r in records :: Confident(r);
    g := Gate(lowest, unconfirmed, hasMissing, lowConfidence);
  }

  lemma LowestStep(records: seq<Record>, r: Record, before: real, after: real)
    requires IsLowest(records, before) && after <= before
    requires forall k | k in r.confidences :: after <= r.confidences[k]
    requires after == before || exists k :: k in r.confidences && after == r.confidences[k]
    ensures IsLowest(records + [r], after)
  {
    var rs := records + [r];
    if after == before {
      if before != 1.0 {
        var x, k :| x in records && k in x.confidences && before == x.confidences[k];
        assert x in rs;
      }
    } else {
      var k :| k in r.confidences && after == r.confidences[k];
      assert r in rs;
    }
  }

  /** The score the gate reports is determined by the records. */
  lemma LowestIsUnique(records: seq<Record>, x: real, y: real)
    requires IsLowest(records, x) && IsLowest(records, y)
    ensures x == y
  {
  }
}
