/** Back-filling the internal label, and its agreement with the labelling done at ingest. */
module InternalLabels {
  import opened Options
  import opened PrefixRules

  /** A stored version: the fields rules look at, and its labels. */
  datatype Stored = Stored(names: Names, labels: set<string>)

  const RESERVED := {"Version", "Defect", "SbomGraphConfig", "Project"}

  predicate IsIdentifier(s: string) {
    && s != ""
    && ('A' <= s[0] <= 'Z' || 'a' <= s[0] <= 'z' || s[0] == '_')
    && forall i :: 0 <= i < |s| ==>
         'A' <= s[i] <= 'Z' || 'a' <= s[i] <= 'z' || '0' <= s[i] <= '9' || s[i] == '_' || s[i] == '-'
  }

  /** _validate_secondary_label_fragment */
  predicate LabelAllowed(tag: string) {
    IsIdentifier(tag) && |tag| <= 96 && tag !in RESERVED
  }

  /** MATCH (v) WHERE v.field IS NOT NULL AND v.field STARTS WITH prefix */
  predicate StoredMatches(rule: Rule, v: Stored) {
    match rule.field
    case "group" => v.names.group.Some? && rule.prefix <= v.names.group.value
    case "name" => v.names.name.Some? && rule.prefix <= v.names.name.value
    case "purl" => v.names.purl.Some? && rule.prefix <= v.names.purl.value
    case _ => false
  }

  /** Some rule that is not empty matches the stored fields. */
  predicate Selected(rules: seq<Rule>, v: Stored) {
    exists r :: r in rules && r.prefix != "" && StoredMatches(r, v)
  }

  function Labelled(rules: seq<Rule>, tag: string, v: Stored): Stored {
    if Selected(rules, v) then v.(labels := v.labels + {tag}) else v
  }

  class VersionStore {
    var versions: map<nat, Stored>

    constructor (versions: map<nat, Stored>)
      ensures this.versions == versions
    {
      this.versions := versions;
    }

    /** One back-fill query. */
    method AddLabel(rule: Rule, tag: string) returns (count: nat)
      modifies this
      ensures versions == map n | n in old(versions) ::
                if StoredMatches(rule, old(versions)[n]) then
                  old(versions)[n].(labels := old(versions)[n].labels + {tag})
                else old(versions)[n]
      ensures count == |set n | n in old(versions) && StoredMatches(rule, old(versions)[n])|
    {
      var hits := set n | n in versions && StoredMatches(rule, versions[n]);
      versions := map n | n in versions ::
        if StoredMatches(rule, versions[n]) then versions[n].(labels := versions[n].labels + {tag}) else versions[n];
      count := |hits|;
    }

    /** apply_internal_label_for_prefix_rules: false stands for the errors it raises. A rule with an
        unknown field stops the loop after the rules before it have been applied. */
    method ApplyInternalLabel(tag: string, rules: seq<Rule>) returns (ok: bool, counts: seq<nat>)
      modifies this
      ensures ok <==> LabelAllowed(tag) && forall r :: r in rules ==> r.field in FIELDS
      ensures ok ==> |counts| == |rules| && forall i :: 0 <= i < |rules| && rules[i].prefix == "" ==> counts[i] == 0
      ensures ok ==> versions == map n | n in old(versions) :: Labelled(rules, tag, old(versions)[n])
      ensures versions.Keys == old(versions).Keys
      ensures forall n :: n in versions ==>
        versions[n].names == old(versions)[n].names &&
          old(versions)[n].labels <= versions[n].labels <= old(versions)[n].labels + {tag}
    {
      counts := [];
      if !LabelAllowed(tag) {
        return false, counts;
      }
      for i := 0 to |rules|
        invariant |counts| == i && forall j :: 0 <= j < i && rules[j].prefix == "" ==> counts[j] == 0
        invariant forall r :: r in rules[..i] ==> r.field in FIELDS
        invariant versions == map n | n in old(versions) :: Labelled(rules[..i], tag, old(versions)[n])
      {
        var rule := rules[i];
        if rule.field !in FIELDS {
          assert rule in rules;
          return false, counts;
        }
        assert rules[..i + 1] == rules[..i] + [rule];
        if rule.prefix == "" {
          LabelledEmpty(rules[..i], rule, tag);
          counts := counts + [0];
          continue;
        }
        LabelledNext(rules[..i], rule, tag);
        var count := AddLabel(rule, tag);
        counts := counts + [count];
      }
      assert rules[..|rules|] == rules;
      ok := true;
    }
  }

  lemma LabelledNext(rules: seq<Rule>, rule: Rule, tag: string)
    requires rule.prefix != ""
    ensures forall v :: Labelled(rules + [rule], tag, v) ==
                        var u := Labelled(rules, tag, v);
                        if StoredMatches(rule, u) then u.(labels := u.labels + {tag}) else u
  {
    forall v
      ensures Selected(rules + [rule], v) <==> Selected(rules, v) || StoredMatches(rule, v)
    {
      if StoredMatches(rule, v) {
        assert rule in rules + [rule];
      }
    }
  }

  lemma LabelledEmpty(rules: seq<Rule>, rule: Rule, tag: string)
    requires rule.prefix == ""
    ensures forall v :: Labelled(rules + [rule], tag, v) == Labelled(rules, tag, v)
  {
    forall v
      ensures Selected(rules + [rule], v) <==> Selected(rules, v)
    {
      assert forall r :: r in rules ==> r in rules + [rule];
    }
  }

  // ---------- agreement with ingest ----------

  lemma MatchesAlike(rule: Rule, v: Stored)
    requires rule.prefix != "" && rule.field in FIELDS
    ensures StoredMatches(rule, v) <==> RuleMatches(rule, v.names)
  {
  }

  /** The back-fill selects what the ingest check finds once empty prefixes are left aside. */
  lemma SelectedIsInternal(rules: seq<Rule>, v: Stored)
    requires forall r :: r in rules ==> r.field in FIELDS
    requires forall r :: r in rules ==> r.prefix != ""
    ensures Selected(rules, v) <==> IsInternal(rules, v.names)
  {
    forall r | r in rules
      ensures StoredMatches(r, v) <==> RuleMatches(r, v.names)
    {
      MatchesAlike(r, v);
    }
  }

  /** Back-fill and ingest agree on every version exactly when no rule has an empty prefix: such a rule
      makes every package internal at ingest and none at back-fill. */
  lemma BackfillAgreesExactly(rules: seq<Rule>)
    requires forall r :: r in rules ==> r.field in FIELDS
    ensures (forall v :: Selected(rules, v) <==> IsInternal(rules, v.names)) <==>
      forall r :: r in rules ==> r.prefix != ""
  {
    if forall r :: r in rules ==> r.prefix != "" {
      forall v
        ensures Selected(rules, v) <==> IsInternal(rules, v.names)
      {
        SelectedIsInternal(rules, v);
      }
    } else {
      var r :| r in rules && r.prefix == "";
      var nameless := Stored(Names(None, None, None), {});
      assert RuleMatches(r, nameless.names);
      assert !Selected(rules, nameless);
    }
  }
}
