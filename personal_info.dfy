/**
 * `contains_personal_info`: the recursive scan that decides whether a model
 * record mentions a personal term anywhere in its string content. The GUI
 * exporter and `simplify_json` carry the same code; both use this definition.
 */
module PersonalInfo {
  import opened JsonValue
  import opened Text

  /** The terms both copies pass in. */
  const PersonalTerms: seq<string> := ["Daniel", "Rosehill", "daniel", "rosehill"]

  /** `for term in personal_terms: if term in s: return True`. */
  predicate MentionsTerm(s: string, terms: seq<string>) {
    exists t :: t in terms && SubstringOf(t, s)
  }

  /**
   * The predicate as written: a dict is scanned by value (a dict or list value
   * is searched recursively, a string value is matched, anything else is
   * skipped), a list by element, a string is matched, and every other value
   * is clean.
   */
  predicate ContainsPersonalInfo(obj: Json, terms: seq<string>)
    decreases obj, 0
  {
    match obj
    case Object(members) => exists i :: 0 <= i < |members| && ValueHit(members[i].1, terms)
    case Array(elems) => exists i :: 0 <= i < |elems| && ContainsPersonalInfo(elems[i], terms)
    case Str(s) => MentionsTerm(s, terms)
    case _ => false
  }

  /** The body of the dict loop for one value. */
  predicate ValueHit(value: Json, terms: seq<string>)
    decreases value, 1
  {
    if value.Object? || value.Array? then ContainsPersonalInfo(value, terms)
    else if value.Str? then MentionsTerm(value.s, terms)
    else false
  }

  /** `s` is a string value reachable from `obj` through dict values and list elements. */
  ghost predicate ReachesString(obj: Json, s: string)
    decreases obj
  {
    match obj
    case Str(t) => t == s
    case Object(members) => exists i :: 0 <= i < |members| && ReachesString(members[i].1, s)
    case Array(elems) => exists i :: 0 <= i < |elems| && ReachesString(elems[i], s)
    case _ => false
  }

  /** `list(d.values())`. */
  function Values(members: Members): (vs: seq<Json>)
    ensures |vs| == |members|
    ensures forall i :: 0 <= i < |members| ==> vs[i] == members[i].1
  {
    seq(|members|, i requires 0 <= i < |members| => members[i].1)
  }

  /** The predicate holds exactly when some reachable string value contains some term. */
  lemma {:induction false} ContainsPersonalInfoMeansReachableMatch(obj: Json, terms: seq<string>)
    ensures ContainsPersonalInfo(obj, terms) <==>
            exists s :: ReachesString(obj, s) && MentionsTerm(s, terms)
    decreases obj
  {
    match obj
    case Str(t) =>
      assert ReachesString(obj, t);
    case Object(members) =>
      if ContainsPersonalInfo(obj, terms) {
        var i :| 0 <= i < |members| && ValueHit(members[i].1, terms);
        var v := members[i].1;
        ContainsPersonalInfoMeansReachableMatch(v, terms);
        if v.Str? {
          assert ReachesString(v, v.s);
        }
        var s :| ReachesString(v, s) && MentionsTerm(s, terms);
        assert ReachesString(obj, s);
      }
      if exists s :: ReachesString(obj, s) && MentionsTerm(s, terms) {
        var s :| ReachesString(obj, s) && MentionsTerm(s, terms);
        var i :| 0 <= i < |members| && ReachesString(members[i].1, s);
        ContainsPersonalInfoMeansReachableMatch(members[i].1, terms);
        assert ValueHit(members[i].1, terms);
      }
    case Array(elems) =>
      if ContainsPersonalInfo(obj, terms) {
        var i :| 0 <= i < |elems| && ContainsPersonalInfo(elems[i], terms);
        ContainsPersonalInfoMeansReachableMatch(elems[i], terms);
        var s :| ReachesString(elems[i], s) && MentionsTerm(s, terms);
        assert ReachesString(obj, s);
      }
      if exists s :: ReachesString(obj, s) && MentionsTerm(s, terms) {
        var s :| ReachesString(obj, s) && MentionsTerm(s, terms);
        var i :| 0 <= i < |elems| && ReachesString(elems[i], s);
        ContainsPersonalInfoMeansReachableMatch(elems[i], terms);
      }
    case _ =>
  }

  /** With no terms nothing is ever flagged. */
  lemma {:induction false} NoTermsNoMatch(obj: Json)
    ensures !ContainsPersonalInfo(obj, [])
    decreases obj
  {
    match obj
    case Object(members) =>
      forall i | 0 <= i < |members| ensures !ValueHit(members[i].1, []) {
        NoTermsNoMatch(members[i].1);
      }
    case Array(elems) =>
      forall i | 0 <= i < |elems| ensures !ContainsPersonalInfo(elems[i], []) {
        NoTermsNoMatch(elems[i]);
      }
    case _ =>
  }

  /** Dict keys are never looked at: a dict is scanned exactly like the list of its values. */
  lemma KeysIgnored(members: Members, terms: seq<string>)
    ensures ContainsPersonalInfo(Object(members), terms) == ContainsPersonalInfo(Array(Values(members)), terms)
  {
    var vs := Values(members);
    forall i | 0 <= i < |members| ensures ValueHit(members[i].1, terms) == ContainsPersonalInfo(vs[i], terms) {
      assert vs[i] == members[i].1;
    }
  }

  /** A value that contains a term is caught wherever it sits in the record. */
  lemma {:induction false} NestedMatchCaught(members: Members, i: nat, terms: seq<string>)
    requires i < |members|
    requires ContainsPersonalInfo(members[i].1, terms)
    ensures ContainsPersonalInfo(Object(members), terms)
  {
    var v := members[i].1;
    assert ValueHit(v, terms) by {
      match v
      case Str(s) =>
      case Object(_) =>
      case Array(_) =>
    }
  }

  // ---------------------------------------------------------------- the record filter

  /** The records the personal-information filter keeps, in input order. */
  function Clean(records: seq<Json>, terms: seq<string>): seq<Json>
    decreases |records|
  {
    if |records| == 0 then []
    else
      var n := |records| - 1;
      Clean(records[..n], terms) + (if ContainsPersonalInfo(records[n], terms) then [] else [records[n]])
  }

  /** A record survives exactly when it is in the input and mentions no term. */
  lemma {:induction false} CleanMembers(records: seq<Json>, terms: seq<string>)
    ensures forall x :: x in Clean(records, terms) <==> x in records && !ContainsPersonalInfo(x, terms)
    decreases |records|
  {
    if |records| > 0 {
      var n := |records| - 1;
      CleanMembers(records[..n], terms);
      assert records == records[..n] + [records[n]];
    }
  }

  /** Filtering a concatenation filters each part: the survivors keep their relative order. */
  lemma {:induction false} CleanAppend(a: seq<Json>, b: seq<Json>, terms: seq<string>)
    ensures Clean(a + b, terms) == Clean(a, terms) + Clean(b, terms)
    decreases |b|
  {
    if |b| == 0 {
      assert a + b == a;
    } else {
      var n := |b| - 1;
      CleanAppend(a, b[..n], terms);
      assert (a + b)[..|a + b| - 1] == a + b[..n];
    }
  }

  /** A list with no flagged record passes through unchanged. */
  lemma {:induction false} CleanKeepsClean(records: seq<Json>, terms: seq<string>)
    requires forall j :: 0 <= j < |records| ==> !ContainsPersonalInfo(records[j], terms)
    ensures Clean(records, terms) == records
    decreases |records|
  {
    if |records| > 0 {
      var n := |records| - 1;
      CleanKeepsClean(records[..n], terms);
    }
  }

  /** Filtering twice is filtering once. */
  lemma CleanIdempotent(records: seq<Json>, terms: seq<string>)
    ensures Clean(Clean(records, terms), terms) == Clean(records, terms)
  {
    var c := Clean(records, terms);
    CleanMembers(records, terms);
    assert forall j :: 0 <= j < |c| ==> c[j] in c;
    CleanKeepsClean(c, terms);
  }

  /** With no terms the filter keeps every record. */
  lemma NoTermsKeepsAll(records: seq<Json>)
    ensures Clean(records, []) == records
  {
    forall j | 0 <= j < |records| ensures !ContainsPersonalInfo(records[j], []) {
      NoTermsNoMatch(records[j]);
    }
    CleanKeepsClean(records, []);
  }
}
