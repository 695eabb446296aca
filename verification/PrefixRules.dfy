/** The rules that mark packages as internal: their grammar, their merging, and what they match. */
module PrefixRules {
  import opened Options
  import opened Text

  datatype Rule = Rule(field: string, prefix: string)

  datatype ParseError = Malformed(token: string) | InvalidField(field: string)

  datatype Result<+T> = Ok(value: T) | Err(error: ParseError)

  const FIELDS := {"group", "name", "purl"}

  // ---------- parsing ----------

  datatype Token = Skipped | Parsed(rule: Rule) | Failed(error: ParseError)

  function ReadToken(raw: string): Token {
    var token := Strip(raw);
    if token == "" then Skipped
    else if ':' !in token then Failed(Malformed(token))
    else
      var (before, prefix) := Cut(token, ':');
      var field := Strip(before);
      if field !in FIELDS then Failed(InvalidField(field)) else Parsed(Rule(field, prefix))
  }

  function AddToken(before: Result<seq<Rule>>, token: Token): Result<seq<Rule>> {
    if before.Err? then before
    else
      match token
      case Skipped => before
      case Parsed(rule) => Ok(before.value + [rule])
      case Failed(error) => Err(error)
  }

  /** The rules of all tokens, or the first error. */
  function ReadTokens(tokens: seq<Token>): Result<seq<Rule>> {
    if tokens == [] then Ok([]) else AddToken(ReadTokens(tokens[..|tokens| - 1]), tokens[|tokens| - 1])
  }

  function Tokens(parts: seq<string>): seq<Token> {
    seq(|parts|, i requires 0 <= i < |parts| => ReadToken(parts[i]))
  }

  function Parse(csv: string): Result<seq<Rule>> {
    if Strip(csv) == "" then Ok([]) else ReadTokens(Tokens(Split(csv, ',')))
  }

  lemma {:induction false} ReadTokensError(tokens: seq<Token>, k: nat)
    requires k <= |tokens| && ReadTokens(tokens[..k]).Err?
    ensures ReadTokens(tokens) == ReadTokens(tokens[..k])
  {
    if k == |tokens| {
      assert tokens[..k] == tokens;
    } else {
      assert tokens[..|tokens| - 1][..k] == tokens[..k];
      ReadTokensError(tokens[..|tokens| - 1], k);
    }
  }

  /** parse_internal_prefixes: token by token, stopping at the first error. */
  method ParseInternalPrefixes(csv: string) returns (result: Result<seq<Rule>>)
    ensures result == Parse(csv)
  {
    if Strip(csv) == "" {
      return Ok([]);
    }
    result := CollectRules(Tokens(Split(csv, ',')));
  }

  method CollectRules(tokens: seq<Token>) returns (result: Result<seq<Rule>>)
    ensures result == ReadTokens(tokens)
  {
    var prefixes: seq<Rule> := [];
    for i := 0 to |tokens|
      invariant ReadTokens(tokens[..i]) == Ok(prefixes)
    {
      assert tokens[..i + 1][..i] == tokens[..i];
      match tokens[i] {
        case Skipped =>
        case Parsed(rule) => prefixes := prefixes + [rule];
        case Failed(error) =>
          ReadTokensError(tokens, i + 1);
          return Err(error);
      }
    }
    assert tokens[..|tokens|] == tokens;
    result := Ok(prefixes);
  }

  // ---------- printing and parsing back ----------

  function FormatRule(rule: Rule): string {
    rule.field + [':'] + rule.prefix
  }

  function FormatRules(rules: seq<Rule>): seq<string> {
    seq(|rules|, i requires 0 <= i < |rules| => FormatRule(rules[i]))
  }

  function Format(rules: seq<Rule>): string {
    Join(FormatRules(rules), ',')
  }

  /** A rule the grammar can express: a known field, and a prefix without commas or trailing space. */
  predicate Canonical(rule: Rule) {
    && rule.field in FIELDS
    && ',' !in rule.prefix
    && (rule.prefix != "" ==> !IsSpace(rule.prefix[|rule.prefix| - 1]))
  }

  predicate AllCanonical(rules: seq<Rule>) {
    forall r :: r in rules ==> Canonical(r)
  }

  lemma SuffixCanonical(token: string, before: string, prefix: string)
    requires token == before + [':'] + prefix && ',' !in token && !IsSpace(token[|token| - 1])
    ensures ',' !in prefix && (prefix != "" ==> !IsSpace(prefix[|prefix| - 1]))
  {
    assert forall i :: 0 <= i < |prefix| ==> prefix[i] == token[|before| + 1 + i];
  }

  lemma ReadTokenCanonical(raw: string)
    requires ',' !in raw
    ensures ReadToken(raw).Parsed? ==> Canonical(ReadToken(raw).rule)
  {
    var token := Strip(raw);
    assert ',' !in token && Trimmed(token) by {
      StripTrims(raw);
    }
    if token != "" && ':' in token {
      var cut := Cut(token, ':');
      SuffixCanonical(token, cut.0, cut.1);
    }
  }

  lemma {:induction false} ReadTokensCanonical(tokens: seq<Token>)
    requires forall i :: 0 <= i < |tokens| && tokens[i].Parsed? ==> Canonical(tokens[i].rule)
    ensures ReadTokens(tokens).Ok? ==> AllCanonical(ReadTokens(tokens).value)
  {
    if tokens != [] {
      ReadTokensCanonical(tokens[..|tokens| - 1]);
    }
  }

  /** Whatever parses yields canonical rules. */
  lemma ParseCanonical(csv: string)
    ensures Parse(csv).Ok? ==> AllCanonical(Parse(csv).value)
  {
    var parts := Split(csv, ',');
    SplitParts(csv, ',');
    var tokens := Tokens(parts);
    forall i | 0 <= i < |tokens| && tokens[i].Parsed?
      ensures Canonical(tokens[i].rule)
    {
      ReadTokenCanonical(parts[i]);
    }
    ReadTokensCanonical(tokens);
  }

  lemma FieldPlain(field: string)
    requires field in FIELDS
    ensures field != "" && Trimmed(field) && !IsSpace(field[0]) && ':' !in field && ',' !in field
  {
  }

  lemma FormatRuleTrimmed(rule: Rule)
    requires Canonical(rule)
    ensures ',' !in FormatRule(rule) && FormatRule(rule) != "" && Trimmed(FormatRule(rule))
  {
    FieldPlain(rule.field);
    var token := FormatRule(rule);
    assert token[0] == rule.field[0];
    assert token[|token| - 1] == if rule.prefix == "" then ':' else rule.prefix[|rule.prefix| - 1];
  }

  lemma ReadTokenSplits(field: string, prefix: string)
    requires field in FIELDS && Trimmed(field) && ':' !in field && Trimmed(field + [':'] + prefix)
    ensures ReadToken(field + [':'] + prefix) == Parsed(Rule(field, prefix))
  {
    StripKeepsTrimmed(field + [':'] + prefix);
    StripKeepsTrimmed(field);
    CutUnique(field, ':', prefix);
  }

  lemma FormatRuleReads(rule: Rule)
    requires Canonical(rule)
    ensures ReadToken(FormatRule(rule)) == Parsed(rule)
    ensures ',' !in FormatRule(rule) && FormatRule(rule) != "" && Trimmed(FormatRule(rule))
  {
    FieldPlain(rule.field);
    FormatRuleTrimmed(rule);
    ReadTokenSplits(rule.field, rule.prefix);
  }

  lemma {:induction false} ReadParsed(rules: seq<Rule>)
    ensures ReadTokens(seq(|rules|, i requires 0 <= i < |rules| => Parsed(rules[i]))) == Ok(rules)
  {
    if rules != [] {
      var n := |rules| - 1;
      var tokens := seq(|rules|, i requires 0 <= i < |rules| => Parsed(rules[i]));
      ReadParsed(rules[..n]);
      assert rules == rules[..n] + [rules[n]];
      assert tokens[..n] == seq(n, i requires 0 <= i < n => Parsed(rules[..n][i]));
    }
  }

  lemma FormattedRead(rules: seq<Rule>)
    requires AllCanonical(rules)
    ensures ReadTokens(Tokens(FormatRules(rules))) == Ok(rules)
  {
    var tokens := Tokens(FormatRules(rules));
    forall i | 0 <= i < |rules|
      ensures tokens[i] == Parsed(rules[i])
    {
      assert rules[i] in rules;
      FormatRuleReads(rules[i]);
    }
    assert tokens == seq(|rules|, i requires 0 <= i < |rules| => Parsed(rules[i]));
    ReadParsed(rules);
  }

  /** The printed list starts and ends with a character that is not white space. */
  lemma {:induction false} JoinTrimmed(parts: seq<string>)
    requires parts != [] && forall p :: p in parts ==> p != "" && Trimmed(p)
    ensures var s := Join(parts, ','); s != "" && Trimmed(s)
  {
    assert parts[0] in parts && parts[|parts| - 1] in parts;
    if |parts| > 1 {
      assert forall p :: p in parts[1..] ==> p in parts;
      JoinTrimmed(parts[1..]);
      var rest, s := Join(parts[1..], ','), Join(parts, ',');
      assert s[0] == parts[0][0] && s[|s| - 1] == rest[|rest| - 1];
    }
  }

  lemma FormatTrimmed(rules: seq<Rule>)
    requires AllCanonical(rules)
    ensures Strip(Format(rules)) == Format(rules) && (rules != [] ==> Format(rules) != "")
  {
    if rules != [] {
      forall p | p in FormatRules(rules)
        ensures p != "" && Trimmed(p)
      {
        var i :| 0 <= i < |rules| && p == FormatRule(rules[i]);
        assert rules[i] in rules;
        FormatRuleReads(rules[i]);
      }
      JoinTrimmed(FormatRules(rules));
      StripKeepsTrimmed(Format(rules));
    }
  }

  lemma CanonicalRoundTrip(rules: seq<Rule>)
    requires AllCanonical(rules)
    ensures Parse(Format(rules)) == Ok(rules)
  {
    FormatTrimmed(rules);
    if rules != [] {
      forall p | p in FormatRules(rules)
        ensures ',' !in p
      {
        var i :| 0 <= i < |rules| && p == FormatRule(rules[i]);
        assert rules[i] in rules;
        FormatRuleReads(rules[i]);
      }
      SplitJoin(FormatRules(rules), ',');
      FormattedRead(rules);
    }
  }

  /** Printing and parsing gives the rules back exactly when the grammar can express each of them. */
  lemma FormatRoundTrip(rules: seq<Rule>)
    ensures Parse(Format(rules)) == Ok(rules) <==> AllCanonical(rules)
  {
    ParseCanonical(Format(rules));
    if AllCanonical(rules) {
      CanonicalRoundTrip(rules);
    }
  }

  /** parse(format(parse(s))) == parse(s) for every accepted s. */
  lemma ParseFormatParse(csv: string)
    requires Parse(csv).Ok?
    ensures Parse(Format(Parse(csv).value)) == Parse(csv)
  {
    ParseCanonical(csv);
    CanonicalRoundTrip(Parse(csv).value);
  }

  // ---------- merging ----------

  /** The elements of xs, each once, in the order of their first occurrence. */
  function Dedup(xs: seq<Rule>): (r: seq<Rule>)
    ensures forall x :: x in r <==> x in xs
  {
    if xs == [] then []
    else
      var front, last := Dedup(xs[..|xs| - 1]), xs[|xs| - 1];
      assert xs == xs[..|xs| - 1] + [last];
      if last in front then front else front + [last]
  }

  function Merge(base: seq<Rule>, overlay: seq<Rule>): seq<Rule> {
    Dedup(base + overlay)
  }

  /** merge_internal_prefix_rule_lists: a running list and the set of rules already seen. */
  method MergeRuleLists(base: seq<Rule>, overlay: seq<Rule>) returns (merged: seq<Rule>)
    ensures merged == Merge(base, overlay)
  {
    merged := [];
    var seen: set<Rule> := {};
    var items := base + overlay;
    for i := 0 to |items|
      invariant merged == Dedup(items[..i])
      invariant forall x :: x in seen <==> x in merged
    {
      assert items[..i + 1][..i] == items[..i];
      if items[i] in seen {
        continue;
      }
      seen := seen + {items[i]};
      merged := merged + [items[i]];
    }
    assert items[..|items|] == items;
  }

  /** The position of the first occurrence. */
  function FirstIndex(xs: seq<Rule>, x: Rule): (i: nat)
    requires x in xs
    ensures i < |xs| && xs[i] == x && x !in xs[..i]
  {
    if xs[0] == x then 0
    else
      var i := FirstIndex(xs[1..], x) + 1;
      assert xs[..i] == [xs[0]] + xs[1..][..i - 1];
      i
  }

  lemma {:induction false} FirstIndexPrefix(xs: seq<Rule>, k: nat, x: Rule)
    requires k <= |xs| && x in xs[..k]
    ensures x in xs && FirstIndex(xs, x) == FirstIndex(xs[..k], x)
  {
    var i, j := FirstIndex(xs[..k], x), FirstIndex(xs, x);
    assert xs[..k][i] == x && xs[..k][..i] == xs[..i];
    assert !(i < j) by {
      assert forall m :: 0 <= m < j ==> xs[..j][m] != x;
    }
  }

  /** Merging keeps the order of first occurrence; in particular no rule appears twice. */
  lemma {:induction false} DedupOrder(xs: seq<Rule>, i: nat, j: nat)
    requires i < j < |Dedup(xs)|
    ensures Dedup(xs)[i] in xs && Dedup(xs)[j] in xs
    ensures FirstIndex(xs, Dedup(xs)[i]) < FirstIndex(xs, Dedup(xs)[j])
  {
    var front, last := xs[..|xs| - 1], xs[|xs| - 1];
    assert xs == front + [last];
    var r := Dedup(xs);
    assert r[i] in r && r[j] in r && r[i] in Dedup(front);
    FirstIndexPrefix(xs, |front|, r[i]);
    if j < |Dedup(front)| {
      assert r[j] in Dedup(front);
      DedupOrder(front, i, j);
      FirstIndexPrefix(xs, |front|, r[j]);
    } else {
      assert r[j] == last && last !in front;
      assert forall m :: 0 <= m < |front| ==> xs[m] == front[m] && front[m] != last;
    }
  }

  lemma {:induction false} DedupAbsorbsLeft(xs: seq<Rule>, ys: seq<Rule>)
    ensures Dedup(Dedup(xs) + ys) == Dedup(xs + ys)
  {
    if ys == [] {
      assert xs + ys == xs && Dedup(xs) + ys == Dedup(xs);
      DedupIdempotent(xs);
    } else {
      var front := ys[..|ys| - 1];
      assert (xs + ys)[..|xs + ys| - 1] == xs + front;
      assert (Dedup(xs) + ys)[..|Dedup(xs) + ys| - 1] == Dedup(xs) + front;
      DedupAbsorbsLeft(xs, front);
    }
  }

  lemma {:induction false} DedupIdempotent(xs: seq<Rule>)
    ensures Dedup(Dedup(xs)) == Dedup(xs)
  {
    if xs != [] {
      var front, last := xs[..|xs| - 1], xs[|xs| - 1];
      DedupIdempotent(front);
      if last !in Dedup(front) {
        assert Dedup(xs)[..|Dedup(xs)| - 1] == Dedup(front);
      }
    }
  }

  lemma {:induction false} DedupAbsorbsRight(xs: seq<Rule>, ys: seq<Rule>)
    ensures Dedup(xs + Dedup(ys)) == Dedup(xs + ys)
  {
    if ys != [] {
      var front, last := ys[..|ys| - 1], ys[|ys| - 1];
      assert ys == front + [last];
      DedupAbsorbsRight(xs, front);
      assert (xs + ys)[..|xs + ys| - 1] == xs + front;
      if last !in Dedup(front) {
        var d := xs + Dedup(ys);
        assert d[..|d| - 1] == xs + Dedup(front);
      }
    }
  }

  lemma MergeAssociative(a: seq<Rule>, b: seq<Rule>, c: seq<Rule>)
    ensures Merge(Merge(a, b), c) == Merge(a, Merge(b, c))
  {
    assert Merge(Merge(a, b), c) == Dedup((a + b) + c) by {
      DedupAbsorbsLeft(a + b, c);
    }
    assert (a + b) + c == a + (b + c);
    DedupAbsorbsRight(a, b + c);
  }

  lemma {:induction false} MergeKnown(a: seq<Rule>, b: seq<Rule>)
    requires forall x :: x in b ==> x in a
    ensures Merge(a, b) == Dedup(a)
  {
    if b == [] {
      assert a + b == a;
    } else {
      assert (a + b)[..|a + b| - 1] == a + b[..|b| - 1];
      assert b[|b| - 1] in b;
      MergeKnown(a, b[..|b| - 1]);
    }
  }

  /** Merging the same rules in again changes nothing. */
  lemma MergeIdempotent(a: seq<Rule>, b: seq<Rule>)
    ensures Merge(Merge(a, b), b) == Merge(a, b)
  {
    MergeKnown(Merge(a, b), b);
    DedupIdempotent(a + b);
  }

  // ---------- matching ----------

  /** The attributes of a project that rules look at. */
  datatype Names = Names(group: Option<string>, name: Option<string>, purl: Option<string>)

  /** getattr(project, field) or "" */
  function Attribute(names: Names, field: string): string {
    var value :=
      if field == "group" then names.group
      else if field == "name" then names.name
      else if field == "purl" then names.purl
      else None;
    if value.Some? then value.value else ""
  }

  predicate RuleMatches(rule: Rule, names: Names) {
    rule.prefix <= Attribute(names, rule.field)
  }

  predicate IsInternal(rules: seq<Rule>, names: Names) {
    exists r :: r in rules && RuleMatches(r, names)
  }

  /** is_internal: the first matching rule decides. */
  method CheckInternal(rules: seq<Rule>, names: Names) returns (internal: bool)
    ensures internal <==> IsInternal(rules, names)
  {
    for i := 0 to |rules|
      invariant forall r :: r in rules[..i] ==> !RuleMatches(r, names)
    {
      if RuleMatches(rules[i], names) {
        return true;
      }
    }
    return false;
  }
}
