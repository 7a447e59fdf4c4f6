/**
 * `simplify_json`: keep the name, system prompt and description of every
 * model, optionally skipping the models that mention a personal term, and
 * count the skipped ones. The output file is written only after the loop,
 * so a failure leaves nothing behind.
 */
module SimplifyJson {
  import opened Wrappers
  import opened JsonValue
  import opened Text
  import opened PersonalInfo
  import opened ScriptFields

  /** `simplified_item` for one model, keys in the order the code inserts them. */
  function SimpleRecord(item: Members): Members {
    [("name", GetOr(item, "name", Str(""))), ("system_prompt", SystemPrompt(item)), ("description", Description(item))]
  }

  /** The models the loop does not skip, in input order. */
  function Survivors(elems: seq<Json>, filterPersonal: bool): seq<Json> {
    if filterPersonal then Clean(elems, PersonalTerms) else elems
  }

  predicate AllDicts(elems: seq<Json>) {
    forall j :: 0 <= j < |elems| ==> elems[j].Object?
  }

  /** `simplified_data` once every survivor has been simplified. */
  function Simplified(survivors: seq<Json>): seq<Members>
    requires AllDicts(survivors)
  {
    seq(|survivors|, j requires 0 <= j < |survivors| => SimpleRecord(survivors[j].members))
  }

  lemma SurvivorsStep(elems: seq<Json>, filterPersonal: bool, j: int)
    requires 0 <= j < |elems|
    ensures Survivors(elems[..j + 1], filterPersonal) ==
            Survivors(elems[..j], filterPersonal) +
            (if filterPersonal && ContainsPersonalInfo(elems[j], PersonalTerms) then [] else [elems[j]])
  {
    assert elems[..j + 1][..j] == elems[..j];
  }

  /** A survivor of a prefix is a survivor of the whole list, at the same position. */
  lemma SurvivorsPrefix(elems: seq<Json>, filterPersonal: bool, j: int)
    requires 0 <= j <= |elems|
    ensures var p := Survivors(elems[..j], filterPersonal);
            var s := Survivors(elems, filterPersonal);
            |p| <= |s| && s[..|p|] == p
  {
    if filterPersonal {
      CleanAppend(elems[..j], elems[j..], PersonalTerms);
      assert elems[..j] + elems[j..] == elems;
    }
  }

  /** A model that survives the filter but is not a dict makes the survivors fail `AllDicts`. */
  lemma SurvivorNotDict(elems: seq<Json>, filterPersonal: bool, j: int)
    requires 0 <= j < |elems| && !elems[j].Object?
    requires !(filterPersonal && ContainsPersonalInfo(elems[j], PersonalTerms))
    ensures !AllDicts(Survivors(elems, filterPersonal))
  {
    SurvivorsStep(elems, filterPersonal, j);
    SurvivorsPrefix(elems, filterPersonal, j + 1);
    var p := Survivors(elems[..j], filterPersonal);
    var s := Survivors(elems, filterPersonal);
    assert s[|p|] == Survivors(elems[..j + 1], filterPersonal)[|p|] == elems[j];
  }

  /** Simplifying one more dict appends its simplified record. */
  lemma SimplifiedAppend(survivors: seq<Json>, item: Json)
    requires AllDicts(survivors) && item.Object?
    ensures AllDicts(survivors + [item])
    ensures Simplified(survivors + [item]) == Simplified(survivors) + [SimpleRecord(item.members)]
  {
  }

  /**
   * The function as written. A top-level value that is not a list returns
   * `False`. Each model is skipped when filtering is on and it contains a
   * personal term; otherwise `item.get` runs, which raises on a model that is
   * not a dict and makes the function return `False` without writing. On
   * success the file holds the simplified survivors.
   */
  method SimplifyJson(data: Json, filterPersonal: bool) returns (ok: bool, written: Option<seq<Members>>, skipped: nat)
    ensures written.Some? <==> ok
    ensures ok <==> data.Array? && AllDicts(Survivors(data.elems, filterPersonal))
    ensures ok ==> written.value == Simplified(Survivors(data.elems, filterPersonal))
    ensures ok ==> skipped + |written.value| == |data.elems|
    ensures ok && !filterPersonal ==> skipped == 0
  {
    if !data.Array? {
      return false, None, 0;
    }
    var elems := data.elems;
    var simplified: seq<Members> := [];
    skipped := 0;
    for j := 0 to |elems|
      invariant AllDicts(Survivors(elems[..j], filterPersonal))
      invariant simplified == Simplified(Survivors(elems[..j], filterPersonal))
      invariant skipped + |simplified| == j
      invariant !filterPersonal ==> skipped == 0
    {
      SurvivorsStep(elems, filterPersonal, j);
      var item := elems[j];
      if filterPersonal && ContainsPersonalInfo(item, PersonalTerms) {
        skipped := skipped + 1;
        continue;
      }
      if !item.Object? {
        SurvivorNotDict(elems, filterPersonal, j);
        return false, None, skipped;
      }
      SimplifiedAppend(Survivors(elems[..j], filterPersonal), item);
      var description, systemPrompt := ReadInfo(item.members);
      simplified := simplified + [[("name", GetOr(item.members, "name", Str(""))),
                                   ("system_prompt", systemPrompt), ("description", description)]];
    }
    assert elems[..|elems|] == elems;
    return true, Some(simplified), skipped;
  }

  // ---------------------------------------------------------------- simplified records stay clean

  /** A value found under a key of a dict is reachable from the dict. */
  lemma GetReaches(members: Members, key: string, s: string)
    requires Get(members, key).Some? && ReachesString(Get(members, key).value, s)
    ensures ReachesString(Object(members), s)
  {
    GetFindsFirst(members, key);
    var i :| 0 <= i < |members| && members[i] == (key, Get(members, key).value)
             && forall j :: 0 <= j < i ==> members[j].0 != key;
    assert ReachesString(members[i].1, s);
  }

  /** The nested field is either the `""` default or a value inside the model. */
  lemma InfoFieldReaches(model: Members, section: string, key: string, s: string)
    requires ReachesString(InfoField(model, section, key), s)
    ensures s == "" || ReachesString(Object(model), s)
  {
    var info := Get(model, "info");
    if info.Some? && info.value.Object? {
      var inner := Get(info.value.members, section);
      if inner.Some? && inner.value.Object? {
        var v := Get(inner.value.members, key);
        if v.Some? {
          GetReaches(inner.value.members, key, s);
          GetReaches(info.value.members, section, s);
          GetReaches(model, "info", s);
        }
      }
    }
  }

  /** The strings of a simplified record are `""` or strings of the original model. */
  lemma SimpleRecordReaches(item: Members, s: string)
    requires ReachesString(Object(SimpleRecord(item)), s)
    ensures s == "" || ReachesString(Object(item), s)
  {
    var r := SimpleRecord(item);
    var i :| 0 <= i < |r| && ReachesString(r[i].1, s);
    if i == 0 {
      if Get(item, "name").Some? {
        GetReaches(item, "name", s);
      }
    } else if i == 1 {
      InfoFieldReaches(item, "params", "system", s);
    } else {
      InfoFieldReaches(item, "meta", "description", s);
    }
  }

  /** Only the empty term occurs in the empty string. */
  lemma EmptyMentions(terms: seq<string>)
    requires "" !in terms
    ensures !MentionsTerm("", terms)
  {
    forall t | t in terms ensures !SubstringOf(t, "") {
      assert t != "";
    }
  }

  /** A model that passed the filter still passes it after simplification. */
  lemma SimplifiedIsClean(item: Members, terms: seq<string>)
    requires "" !in terms
    requires !ContainsPersonalInfo(Object(item), terms)
    ensures !ContainsPersonalInfo(Object(SimpleRecord(item)), terms)
  {
    ContainsPersonalInfoMeansReachableMatch(Object(item), terms);
    ContainsPersonalInfoMeansReachableMatch(Object(SimpleRecord(item)), terms);
    if ContainsPersonalInfo(Object(SimpleRecord(item)), terms) {
      var s :| ReachesString(Object(SimpleRecord(item)), s) && MentionsTerm(s, terms);
      SimpleRecordReaches(item, s);
      EmptyMentions(terms);
    }
  }

  /** With filtering on, no written record mentions a personal term. */
  lemma WrittenRecordsClean(elems: seq<Json>, j: int)
    requires AllDicts(Clean(elems, PersonalTerms))
    requires 0 <= j < |Clean(elems, PersonalTerms)|
    ensures !ContainsPersonalInfo(Object(Simplified(Clean(elems, PersonalTerms))[j]), PersonalTerms)
  {
    var c := Clean(elems, PersonalTerms);
    CleanMembers(elems, PersonalTerms);
    assert c[j] in c;
    SimplifiedIsClean(c[j].members, PersonalTerms);
  }
}
