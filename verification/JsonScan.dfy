/** Quotes and brackets, character by character: where a parsed text stands between them. */
module JsonScan {
  import opened Json
  import opened JsonRoundTrip

  /** Between strings, inside one, or after a backslash in one, within depth brackets; after the outermost
      bracket has closed; or where no document can come from. */
  datatype Scan = Out(depth: nat) | In(depth: nat) | Escaped(depth: nat) | Done | Bad

  function Close(depth: nat): Scan {
    if depth <= 1 then Done else Out(depth - 1)
  }

  function Step(at: Scan, c: char): Scan {
    match at
    case Out(d) =>
      if c == '"' then In(d)
      else if c == '{' || c == '[' then Out(d + 1)
      else if c == '}' || c == ']' then Close(d)
      else if c == '\\' then Bad
      else at
    case In(d) => if c == '"' then Out(d) else if c == '\\' then Escaped(d) else at
    case Escaped(d) => In(d)
    case Done => if IsSpace(c) then Done else Bad
    case Bad => Bad
  }

  function Over(at: Scan, s: string): Scan
    decreases |s|
  {
    if s == "" then at else Over(Step(at, s[0]), s[1..])
  }

  lemma {:induction false} OverConcat(at: Scan, s: string, t: string)
    ensures Over(at, s + t) == Over(Over(at, s), t)
    decreases |s|
  {
    if s == "" {
      assert s + t == t;
    } else {
      assert (s + t)[1..] == s[1..] + t;
      OverConcat(Step(at, s[0]), s[1..], t);
    }
  }

  lemma {:induction false} BadStays(s: string)
    ensures Over(Bad, s) == Bad
  {
    if s != "" {
      BadStays(s[1..]);
    }
  }

  // ---------- what the parser passes over ----------

  lemma {:induction false} SkipScans(at: Scan, s: string)
    requires at.Out? || at.Done?
    ensures Over(at, s) == Over(at, Skip(s))
  {
    if s != "" && IsSpace(s[0]) {
      SkipScans(at, s[1..]);
    }
  }

  lemma {:induction false} NumberScans(d: nat, s: string)
    ensures Over(Out(d), s) == Over(Out(d), s[NumberEnd(s)..])
  {
    if s != "" && IsNumberChar(s[0]) {
      NumberScans(d, s[1..]);
      assert s[1..][NumberEnd(s[1..])..] == s[NumberEnd(s)..];
    } else {
      assert s[0..] == s;
    }
  }

  lemma FourScan(d: nat, s: string)
    requires Hex4(s) != 0x1_0000
    ensures |s| >= 4 && Over(In(d), s) == Over(In(d), s[4..])
  {
    assert s[1..][1..] == s[2..] && s[2..][1..] == s[3..] && s[3..][1..] == s[4..];
    assert Over(In(d), s) == Over(In(d), s[1..]);
    assert Over(In(d), s[1..]) == Over(In(d), s[2..]);
    assert Over(In(d), s[2..]) == Over(In(d), s[3..]);
    assert Over(In(d), s[3..]) == Over(In(d), s[4..]);
  }

  lemma UnicodeScans(d: nat, s: string)
    requires ParseUnicode(s).Read?
    ensures Over(In(d), s) == Over(In(d), ParseUnicode(s).rest)
  {
    FourScan(d, s);
    if !IsScalar(Hex4(s)) {
      FourScan(d, s[6..]);
      assert s[4..][1..] == s[5..] && s[5..][1..] == s[6..] && s[6..][4..] == s[10..];
      assert Over(In(d), s[4..]) == Over(Escaped(d), s[5..]);
      assert Over(Escaped(d), s[5..]) == Over(In(d), s[6..]);
    }
  }

  lemma EscapeScans(d: nat, s: string)
    requires ParseEscape(s).Read?
    ensures Over(Escaped(d), s) == Over(In(d), ParseEscape(s).rest)
  {
    if s[0] == 'u' {
      UnicodeScans(d, s[1..]);
    }
  }

  lemma CharScans(d: nat, s: string)
    requires s != "" && s[0] != '"' && ParseChar(s).Read?
    ensures Over(In(d), s) == Over(In(d), ParseChar(s).rest)
  {
    if s[0] == '\\' {
      EscapeScans(d, s[1..]);
    }
  }

  lemma {:induction false} TextScans(d: nat, s: string)
    requires ParseText(s).Read?
    ensures Over(In(d), s) == Over(Out(d), ParseText(s).rest)
  {
    if s[0] != '"' {
      CharScans(d, s);
      TextScans(d, ParseChar(s).rest);
    }
  }

  lemma WordScans(d: nat, s: string, word: string, v: Value)
    requires word == "null" || word == "true" || word == "false"
    requires word <= s
    ensures Over(Out(d), s) == Over(Out(d), s[|word|..])
  {
    assert s == word + s[|word|..];
    OverConcat(Out(d), word, s[|word|..]);
    PlainWord(d, word);
  }

  lemma {:induction false} PlainWord(d: nat, word: string)
    requires forall i :: 0 <= i < |word| ==> 'a' <= word[i] <= 'z'
    ensures Over(Out(d), word) == Out(d)
  {
    if word != "" {
      PlainWord(d, word[1..]);
    }
  }

  lemma ScalarScans(d: nat, t: string)
    requires t != "" && t[0] != '{' && t[0] != '[' && Skip(t) == t && ParseValue(t).Read?
    ensures Over(Out(d), t) == Over(Out(d), ParseValue(t).rest)
  {
    match t[0]
    case '"' => TextScans(d, t[1..]);
    case 'n' => WordScans(d, t, "null", Null);
    case 't' => WordScans(d, t, "true", Bool(true));
    case 'f' => WordScans(d, t, "false", Bool(false));
    case _ => NumberScans(d, t);
  }

  /** A value in brackets is passed over as a whole. */
  lemma {:induction false} ValueScans(d: nat, s: string)
    requires d > 0 && ParseValue(s).Read?
    ensures Over(Out(d), s) == Over(Out(d), ParseValue(s).rest)
    decreases |s|, 1
  {
    var t := Skip(s);
    SkipScans(Out(d), s);
    SkipTwice(s);
    if t[0] == '{' {
      ObjectScans(d, t[1..]);
    } else if t[0] == '[' {
      ArrayScans(d, t[1..]);
    } else {
      ScalarScans(d, t);
    }
  }

  lemma {:induction false} SkipTwice(s: string)
    ensures Skip(Skip(s)) == Skip(s) && ParseValue(Skip(s)) == ParseValue(s)
  {
    if s != "" && IsSpace(s[0]) {
      SkipTwice(s[1..]);
    }
  }

  lemma {:induction false} ArrayScans(d: nat, s: string)
    requires d > 0 && ParseArray(s).Read?
    ensures Over(Out(d + 1), s) == Over(Out(d), ParseArray(s).rest)
    decreases |s|, 3
  {
    SkipScans(Out(d + 1), s);
    if Skip(s) == "" || Skip(s)[0] != ']' {
      ItemsScan(d, s);
    }
  }

  lemma {:induction false} ItemsScan(d: nat, s: string)
    requires d > 0 && ParseItems(s).Read?
    ensures Over(Out(d + 1), s) == Over(Out(d), ParseItems(s).rest)
    decreases |s|, 2
  {
    ValueScans(d + 1, s);
    var rest := ParseValue(s).rest;
    SkipScans(Out(d + 1), rest);
    if Skip(rest)[0] == ',' {
      ItemsScan(d, Skip(rest)[1..]);
    }
  }

  lemma {:induction false} ObjectScans(d: nat, s: string)
    requires ParseObject(s).Read?
    ensures Over(Out(d + 1), s) == Over(Close(d + 1), ParseObject(s).rest)
    decreases |s|, 4
  {
    SkipScans(Out(d + 1), s);
    if Skip(s) == "" || Skip(s)[0] != '}' {
      MembersScan(d, s);
    }
  }

  lemma {:induction false} MembersScan(d: nat, s: string)
    requires ParseMembers(s).Read?
    ensures Over(Out(d + 1), s) == Over(Close(d + 1), ParseMembers(s).rest)
    decreases |s|, 3
  {
    MemberScans(d, s);
    var rest := ParseMember(s).rest;
    SkipScans(Out(d + 1), rest);
    if Skip(rest)[0] == ',' {
      MembersScan(d, Skip(rest)[1..]);
    }
  }

  lemma {:induction false} MemberScans(d: nat, s: string)
    requires ParseMember(s).Read?
    ensures Over(Out(d + 1), s) == Over(Out(d + 1), ParseMember(s).rest)
    decreases |s|, 2
  {
    var t := Skip(s);
    SkipScans(Out(d + 1), s);
    TextScans(d + 1, t[1..]);
    var colon := ParseText(t[1..]).rest;
    SkipScans(Out(d + 1), colon);
    ValueScans(d + 1, Skip(colon)[1..]);
  }

  /** A document that is an object ends with its outermost bracket closed. */
  lemma ObjectDocumentScans(body: string)
    requires Loads("{" + body).Read?
    ensures Over(Out(1), body) == Done
  {
    ObjectOpens(body);
    ObjectScans(0, body);
    SkipScans(Done, ParseObject(body).rest);
  }

  // ---------- written values ----------

  /** A written value leaves the scan between strings where it was. */
  lemma DumpsScans(d: nat, v: Value)
    requires d > 0 && Sane(v)
    ensures Over(Out(d), Dumps(v)) == Out(d)
  {
    ValueRead(v, "");
    assert Dumps(v) + "" == Dumps(v);
    ValueScans(d, Dumps(v));
  }

  /** Inside a string, or nowhere. */
  predicate Inside(at: Scan) {
    at.In? || at.Bad?
  }

  /** Nowhere near the end of a document without another quote. */
  predicate Outside(at: Scan) {
    !at.In? && !at.Escaped?
  }

  lemma EscapedChar(at: Scan, c: char)
    requires Outside(at)
    ensures Outside(Over(at, EscapeChar(c)))
  {
    var s := EscapeChar(c);
    if |s| > 1 {
      BackslashOutside(at, s);
    } else {
      assert s[1..] == "";
    }
  }

  /** Between strings a backslash leads nowhere. */
  lemma BackslashOutside(at: Scan, s: string)
    requires Outside(at) && s != "" && s[0] == '\\'
    ensures Over(at, s) == Bad
  {
    BadStays(s[1..]);
  }

  lemma {:induction false} EscapedText(at: Scan, t: string)
    requires Outside(at)
    ensures Outside(Over(at, Escape(t)))
    decreases |t|
  {
    if t != "" {
      OverConcat(at, EscapeChar(t[0]), Escape(t[1..]));
      EscapedChar(at, t[0]);
      EscapedText(Over(at, EscapeChar(t[0])), t[1..]);
    }
  }

  /** Read from inside a string, a written string ends inside a string or nowhere. */
  lemma QuotedInside(at: Scan, t: string)
    requires Inside(at)
    ensures Inside(Over(at, Quote(t)))
  {
    if at.In? {
      assert Quote(t) == "\"" + (Escape(t) + "\"");
      assert ("\"" + (Escape(t) + "\""))[1..] == Escape(t) + "\"";
      EscapedText(Out(at.depth), t);
      OverConcat(Out(at.depth), Escape(t), "\"");
      assert "\""[1..] == "";
    } else {
      BadStays(Quote(t));
    }
  }

  /** Text without quotes and backslashes stays inside. */
  lemma {:induction false} PlainInside(at: Scan, s: string)
    requires Inside(at) && forall i :: 0 <= i < |s| ==> s[i] != '"' && s[i] != '\\'
    ensures Inside(Over(at, s))
  {
    if s != "" {
      PlainInside(Step(at, s[0]), s[1..]);
    }
  }

  /** Three pieces of text, each from inside to inside. */
  lemma InsideThree(at: Scan, a: string, b: string, c: string)
    requires Inside(Over(at, a)) && Inside(Over(Over(at, a), b)) && Inside(Over(Over(Over(at, a), b), c))
    ensures Inside(Over(at, a + b + c))
  {
    OverConcat(at, a, b);
    OverConcat(at, a + b, c);
  }

  lemma {:induction false} DumpsInside(at: Scan, v: Value)
    requires Inside(at) && Sane(v)
    ensures Inside(Over(at, Dumps(v)))
    decreases v, 0
  {
    match v
    case Text(t) => QuotedInside(at, t);
    case Array(items) =>
      PlainInside(at, "[");
      ItemsInside(Over(at, "["), items, ", ");
      PlainInside(Over(Over(at, "["), Items(items, ", ")), "]");
      InsideThree(at, "[", Items(items, ", "), "]");
    case Object(members) =>
      PlainInside(at, "{");
      MembersInside(Over(at, "{"), members);
      PlainInside(Over(Over(at, "{"), Members(members)), "}");
      InsideThree(at, "{", Members(members), "}");
    case Number(literal) =>
      LiteralChars(literal);
      PlainInside(at, literal);
    case _ => PlainInside(at, Dumps(v));
  }

  lemma {:induction false} ItemsInside(at: Scan, items: seq<Value>, separator: string)
    requires Inside(at) && (separator == "," || separator == ", ") && forall i :: 0 <= i < |items| ==> Sane(items[i])
    ensures Inside(Over(at, Items(items, separator)))
    decreases items, 1
  {
    if items != [] {
      DumpsInside(at, items[0]);
      if |items| > 1 {
        var first := Over(at, Dumps(items[0]));
        PlainInside(first, separator);
        ItemsInside(Over(first, separator), items[1..], separator);
        InsideThree(at, Dumps(items[0]), separator, Items(items[1..], separator));
      }
    }
  }

  lemma {:induction false} MembersInside(at: Scan, members: seq<Member>)
    requires Inside(at) && forall i :: 0 <= i < |members| ==> Sane(members[i].value)
    ensures Inside(Over(at, Members(members)))
    decreases members, 1
  {
    if members != [] {
      PairInside(at, members[0]);
      if |members| > 1 {
        var first := Over(at, Pair(members[0]));
        PlainInside(first, ", ");
        MembersInside(Over(first, ", "), members[1..]);
        InsideThree(at, Pair(members[0]), ", ", Members(members[1..]));
      }
    }
  }

  lemma {:induction false} PairInside(at: Scan, m: Member)
    requires Inside(at) && Sane(m.value)
    ensures Inside(Over(at, Pair(m)))
    decreases m, 1
  {
    var first := Over(at, Quote(m.key));
    QuotedInside(at, m.key);
    PlainInside(first, ": ");
    DumpsInside(Over(first, ": "), m.value);
    InsideThree(at, Quote(m.key), ": ", Dumps(m.value));
  }

  lemma {:induction false} ItemsScanned(d: nat, items: seq<Value>)
    requires d > 0 && forall i :: 0 <= i < |items| ==> Sane(items[i])
    ensures Over(Out(d), Items(items, ",")) == Out(d)
  {
    if items != [] {
      DumpsScans(d, items[0]);
      if |items| > 1 {
        ItemsScanned(d, items[1..]);
        OverConcat(Out(d), Dumps(items[0]), ",");
        OverConcat(Out(d), Dumps(items[0]) + ",", Items(items[1..], ","));
        assert ","[1..] == "";
      }
    }
  }

  // ---------- a list that is never closed ----------

  /** Wherever the text stands before a quote, a colon and an opening bracket: rows after them never come to
      the end of a document. */
  lemma NeverDone(at: Scan, rows: seq<Value>)
    requires forall i :: 0 <= i < |rows| ==> Sane(rows[i])
    requires (at.Out? || at.In? || at.Escaped?) ==> at.depth > 0
    ensures Over(at, "\":[" + Items(rows, ",")) != Done
  {
    var items := Items(rows, ",");
    OverConcat(at, "\":[", items);
    QuoteColonBracket(at);
    if at.In? {
      ItemsScanned(at.depth + 1, rows);
    } else if at.Out? || at.Escaped? {
      ItemsInside(In(at.depth), rows, ",");
    } else {
      BadStays(items);
    }
  }

  lemma QuoteColonBracket(at: Scan)
    ensures Over(at, "\":[") ==
      match at { case In(d) => Out(d + 1) case Out(d) => In(d) case Escaped(d) => In(d) case _ => Bad }
  {
    assert "\":["[1..] == ":[" && ":["[1..] == "[" && "["[1..] == "";
    assert Over(at, "\":[") == Over(Step(at, '"'), ":[");
    assert Over(Step(at, '"'), ":[") == Over(Step(Step(at, '"'), ':'), "[");
    assert Over(Step(Step(at, '"'), ':'), "[") == Over(Step(Step(Step(at, '"'), ':'), '['), "");
  }

  /** A scan that starts within brackets is within brackets as long as it is not done. */
  lemma {:induction false} StaysWithin(at: Scan, s: string)
    requires (at.Out? || at.In? || at.Escaped?) ==> at.depth > 0
    ensures var end := Over(at, s); (end.Out? || end.In? || end.Escaped?) ==> end.depth > 0
    decreases |s|
  {
    if s != "" {
      StaysWithin(Step(at, s[0]), s[1..]);
    }
  }

  /** Whatever the key: an object cut off in the rows of a list is no document. */
  lemma UnclosedIsNoDocument(before: string, rows: seq<Value>)
    requires forall i :: 0 <= i < |rows| ==> Sane(rows[i])
    ensures Loads("{" + (before + ("\":[" + Items(rows, ",")))) == Fail
  {
    var body := before + ("\":[" + Items(rows, ","));
    OverConcat(Out(1), before, "\":[" + Items(rows, ","));
    StaysWithin(Out(1), before);
    NeverDone(Over(Out(1), before), rows);
    if Loads("{" + body).Read? {
      ObjectDocumentScans(body);
    }
  }
}
