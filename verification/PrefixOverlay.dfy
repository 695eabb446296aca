/** The stored overlay of prefix rules: how it combines with the environment's rules, and extending it. */
module PrefixOverlay {
  import opened Options
  import opened Text
  import opened PrefixRules

  const MAX_OVERLAY_CHARS := 16384

  /** The rules in force: the environment's merged with the overlay's; an overlay that does not parse
      is ignored. */
  function EffectiveRules(env: seq<Rule>, overlay: string): seq<Rule> {
    match Parse(Strip(overlay))
    case Ok(rules) => Merge(env, rules)
    case Err(_) => env
  }

  /** The overlay's rules, or none if it does not parse. */
  function OverlayRules(overlay: string): seq<Rule> {
    match Parse(Strip(overlay))
    case Ok(rules) => rules
    case Err(_) => []
  }

  /** The overlay text once more rules have been appended. */
  function ExtendedOverlay(overlay: string, more: seq<Rule>): string {
    Format(Merge(OverlayRules(overlay), more))
  }

  lemma StripStrip(s: string)
    ensures Strip(Strip(s)) == Strip(s)
  {
    StripTrims(s);
    StripKeepsTrimmed(Strip(s));
  }

  lemma OverlayRulesCanonical(overlay: string)
    ensures AllCanonical(OverlayRules(overlay))
  {
    ParseCanonical(Strip(overlay));
  }

  /** The stored text of an extended overlay reads back as the merged rules. */
  lemma ExtendedOverlayReads(overlay: string, more: seq<Rule>)
    requires AllCanonical(more)
    ensures Parse(Strip(ExtendedOverlay(overlay, more))) == Ok(Merge(OverlayRules(overlay), more))
  {
    OverlayRulesCanonical(overlay);
    var merged := Merge(OverlayRules(overlay), more);
    FormatTrimmed(merged);
    CanonicalRoundTrip(merged);
  }

  /** Extending the overlay extends the rules in force by exactly the added ones, whatever was stored
      before, even text that does not parse. */
  lemma ExtendIsMerge(env: seq<Rule>, overlay: string, more: seq<Rule>)
    requires AllCanonical(more)
    ensures EffectiveRules(env, ExtendedOverlay(overlay, more)) == Merge(EffectiveRules(env, overlay), more)
  {
    ExtendedOverlayReads(overlay, more);
    MergeAssociative(env, OverlayRules(overlay), more);
    if Parse(Strip(overlay)).Err? {
      assert Merge(env, Merge([], more)) == Merge(env, more) by {
        assert [] + more == more;
        DedupAbsorbsRight(env, more);
      }
    }
  }

  /** Extending twice by the same rules stores the same text as extending once. */
  lemma ExtendIsIdempotent(overlay: string, more: seq<Rule>)
    requires AllCanonical(more)
    ensures ExtendedOverlay(ExtendedOverlay(overlay, more), more) == ExtendedOverlay(overlay, more)
  {
    ExtendedOverlayReads(overlay, more);
    MergeIdempotent(OverlayRules(overlay), more);
  }

  /** The overlay's rules; a blank overlay has none and is not parsed. */
  method ReadOverlay(raw: string) returns (rules: Result<seq<Rule>>)
    ensures rules == Parse(Strip(raw))
  {
    StripStrip(raw);
    if Strip(raw) == "" {
      return Ok([]);
    }
    rules := ParseInternalPrefixes(Strip(raw));
  }

  /** The environment's rules merged with the overlay's, if both parse. */
  function Combined(envCsv: string, overlay: string): Result<seq<Rule>> {
    match Parse(Strip(envCsv))
    case Err(error) => Err(error)
    case Ok(env) =>
      match Parse(Strip(overlay))
      case Err(error) => Err(error)
      case Ok(rules) => Ok(Merge(env, rules))
  }

  method CombineRules(envCsv: string, overlay: string) returns (rules: Result<seq<Rule>>)
    ensures rules == Combined(envCsv, overlay)
  {
    var env := ParseInternalPrefixes(Strip(envCsv));
    if env.Err? {
      return env;
    }
    var more := ReadOverlay(overlay);
    if more.Err? {
      return more;
    }
    var merged := MergeRuleLists(env.value, more.value);
    return Ok(merged);
  }

  /** Falling back to the environment's rules gives the rules in force. */
  lemma CombinedIsEffective(envCsv: string, overlay: string)
    requires Parse(Strip(envCsv)).Ok?
    ensures EffectiveRules(Parse(Strip(envCsv)).value, overlay) ==
      if Combined(envCsv, overlay).Ok? then Combined(envCsv, overlay).value else Parse(Strip(envCsv)).value
  {
  }

  // ---------- the stored node and the connections to it ----------

  /** The singleton configuration node; None while it has not been created. */
  class ConfigNode {
    var overlay: Option<string>

    constructor ()
      ensures overlay == None
    {
      overlay := None;
    }

    function Raw(): string
      reads this
    {
      if overlay.Some? then overlay.value else ""
    }
  }

  class Persistence {
    const config: ConfigNode
    var internalPrefixes: seq<Rule>

    constructor (config: ConfigNode, prefixes: seq<Rule>)
      ensures this.config == config && internalPrefixes == prefixes
    {
      this.config := config;
      internalPrefixes := prefixes;
    }

    /** set_internal_prefixes_overlay_raw: refuses text that is too long or does not parse. */
    method SetOverlay(csv: string) returns (stored: bool)
      modifies config
      ensures stored <==> |csv| <= MAX_OVERLAY_CHARS && Parse(csv).Ok?
      ensures config.overlay == if stored then Some(csv) else old(config.overlay)
    {
      if |csv| > MAX_OVERLAY_CHARS {
        return false;
      }
      if Strip(csv) != "" {
        var parsed := ParseInternalPrefixes(csv);
        if parsed.Err? {
          return false;
        }
      }
      config.overlay := Some(csv);
      return true;
    }

    /** reload_internal_prefixes_from_env_and_overlay; false stands for the parse error it raises. */
    method Reload(envCsv: string) returns (ok: bool)
      modifies this
      ensures ok <==> Combined(envCsv, config.Raw()).Ok?
      ensures internalPrefixes == if ok then Combined(envCsv, config.Raw()).value else old(internalPrefixes)
    {
      var rules := CombineRules(envCsv, config.Raw());
      if rules.Ok? {
        internalPrefixes := rules.value;
      }
      ok := rules.Ok?;
    }
  }

  /** create_ingestion_persistence; None stands for the error an invalid environment raises. */
  method CreateIngestionPersistence(config: ConfigNode, envCsv: string) returns (p: Option<Persistence>)
    ensures p.Some? <==> Parse(Strip(envCsv)).Ok?
    ensures p.Some? ==> fresh(p.value) && p.value.config == config
    ensures p.Some? ==> p.value.internalPrefixes == EffectiveRules(Parse(Strip(envCsv)).value, config.Raw())
  {
    var base := ParseInternalPrefixes(Strip(envCsv));
    if base.Err? {
      return None;
    }
    var persistence := new Persistence(config, base.value);
    var ok := persistence.Reload(envCsv);
    CombinedIsEffective(envCsv, config.Raw());
    if !ok {
      persistence.internalPrefixes := base.value;
    }
    p := Some(persistence);
  }

  /** internal_prefix_overlay_extend: the response status and the rules in force it reports. */
  method ExtendOverlay(config: ConfigNode, envCsv: string, additional: string)
    returns (status: int, effective: seq<Rule>)
    modifies config
    ensures status == 200 || status == 400
    ensures status == 200 <==>
      && Parse(Strip(additional)).Ok? && Parse(Strip(envCsv)).Ok?
      && |ExtendedOverlay(old(config.Raw()), Parse(Strip(additional)).value)| <= MAX_OVERLAY_CHARS
    ensures status == 400 ==> config.overlay == old(config.overlay)
    ensures status == 200 ==> Parse(Strip(additional)).Ok? && Parse(Strip(envCsv)).Ok?
    ensures status == 200 ==> config.Raw() == ExtendedOverlay(old(config.Raw()), Parse(Strip(additional)).value)
    ensures status == 200 ==>
      effective == Merge(EffectiveRules(Parse(Strip(envCsv)).value, old(config.Raw())), Parse(Strip(additional)).value)
  {
    effective := [];
    var more := ParseInternalPrefixes(Strip(additional));
    var connection := CreateIngestionPersistence(config, envCsv);
    if more.Err? || connection.None? {
      return 400, [];
    }
    ParseCanonical(Strip(additional));
    var persistence := connection.value;
    var raw := config.Raw();
    var parsed := ReadOverlay(raw);
    var merged := MergeRuleLists(if parsed.Ok? then parsed.value else [], more.value);
    OverlayRulesCanonical(raw);
    CanonicalRoundTrip(merged);
    var stored := persistence.SetOverlay(Format(merged));
    if !stored {
      return 400, [];
    }
    var refreshed := CreateIngestionPersistence(config, envCsv);
    ExtendIsMerge(Parse(Strip(envCsv)).value, raw, more.value);
    return 200, refreshed.value.internalPrefixes;
  }
}
