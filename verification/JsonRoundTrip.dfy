/** Parsing gives back what was written. */
module JsonRoundTrip {
  import opened Json

  /** Every number literal in the value is one. */
  predicate Sane(v: Value)
    decreases v
  {
    match v
    case Number(literal) => IsNumber(literal)
    case Array(items) => forall i :: 0 <= i < |items| ==> Sane(items[i])
    case Object(members) => forall i :: 0 <= i < |members| ==> Sane(members[i].value)
    case _ => true
  }

  /** No number goes on into s. */
  predicate Ends(s: string) {
    s == "" || !IsNumberChar(s[0])
  }

  // ---------- strings ----------

  lemma HexDigitValue(d: nat)
    requires d < 16
    ensures HexValue(HexDigit(d)) == d
  {
  }

  lemma Base16(n: nat)
    requires n < 0x1_0000
    ensures n / 4096 < 16 && n == n / 4096 * 4096 + n / 256 % 16 * 256 + n / 16 % 16 * 16 + n % 16
  {
    assert n / 256 == n / 4096 * 16 + n / 256 % 16;
    assert n / 16 == n / 256 * 16 + n / 16 % 16;
  }

  lemma Hex4Read(n: nat, tail: string)
    requires n < 0x1_0000
    ensures Unicode(n) + tail == ['\\', 'u'] + (Unicode(n)[2..] + tail)
    ensures Hex4(Unicode(n)[2..] + tail) == n && (Unicode(n)[2..] + tail)[4..] == tail
  {
    Base16(n);
    HexDigitValue(n / 4096);
    HexDigitValue(n / 256 % 16);
    HexDigitValue(n / 16 % 16);
    HexDigitValue(n % 16);
  }

  lemma EscapeOpens(s: string)
    ensures ParseChar("\\" + s) == ParseEscape(s)
  {
    assert ("\\" + s)[1..] == s;
  }

  lemma UnicodeOpens(s: string)
    ensures ParseChar(['\\', 'u'] + s) == ParseUnicode(s)
  {
    var t := "u" + s;
    assert ['\\', 'u'] + s == "\\" + t && t[1..] == s;
    EscapeOpens(t);
  }

  lemma BasicRead(n: nat, tail: string)
    requires IsScalar(n)
    ensures ParseChar(Unicode(n) + tail) == Read(n as char, tail)
  {
    Hex4Read(n, tail);
    UnicodeOpens(Unicode(n)[2..] + tail);
  }

  lemma PairPieces(high: string, low: string, tail: string)
    requires |high| == 4 && |low| == 4
    ensures var s := high + (['\\', 'u'] + (low + tail));
            |s| >= 10 && s[4] == '\\' && s[5] == 'u' && s[6..] == low + tail && s[10..] == tail
  {
  }

  lemma PairRead(high: nat, low: nat, tail: string)
    requires 0xD800 <= high < 0xDC00 && 0xDC00 <= low < 0xE000
    ensures ParseChar(Unicode(high) + (Unicode(low) + tail)) == Read(Combine(high, low), tail)
  {
    Hex4Read(low, tail);
    Hex4Read(high, Unicode(low) + tail);
    PairPieces(Unicode(high)[2..], Unicode(low)[2..], tail);
    UnicodeOpens(Unicode(high)[2..] + (Unicode(low) + tail));
  }

  lemma CombineSurrogates(c: char)
    requires c as int >= 0x1_0000
    ensures Combine(HighSurrogate(c as int), LowSurrogate(c as int)) == c
  {
  }

  lemma WideText(c: char, tail: string)
    requires c as int >= 0x1_0000
    ensures EscapeChar(c) != "" && EscapeChar(c)[0] == '\\'
    ensures EscapeChar(c) + tail == Unicode(HighSurrogate(c as int)) + (Unicode(LowSurrogate(c as int)) + tail)
  {
  }

  lemma WideRead(c: char, tail: string)
    requires c as int >= 0x1_0000
    ensures EscapeChar(c) != "" && EscapeChar(c)[0] == '\\' && ParseChar(EscapeChar(c) + tail) == Read(c, tail)
  {
    WideText(c, tail);
    CombineSurrogates(c);
    PairRead(HighSurrogate(c as int), LowSurrogate(c as int), tail);
  }

  /** The characters with an escape of their own. */
  predicate IsSpecial(c: char) {
    c == '"' || c == '\\' || c == '\n' || c == '\r' || c == '\t' || c == '\U{8}' || c == '\U{c}'
  }

  lemma SpecialRead(c: char, tail: string)
    requires IsSpecial(c)
    ensures EscapeChar(c) != "" && EscapeChar(c)[0] == '\\' && ParseChar(EscapeChar(c) + tail) == Read(c, tail)
  {
    var s := [EscapeChar(c)[1]] + tail;
    assert EscapeChar(c) + tail == "\\" + s && s[1..] == tail;
    EscapeOpens(s);
  }

  lemma PlainRead(c: char, tail: string)
    requires ' ' <= c <= '~' && c != '"' && c != '\\'
    ensures EscapeChar(c) == [c] && ParseChar([c] + tail) == Read(c, tail)
  {
    assert ([c] + tail)[1..] == tail;
  }

  lemma CharRead(c: char, tail: string)
    ensures EscapeChar(c) != "" && EscapeChar(c)[0] != '"'
    ensures ParseChar(EscapeChar(c) + tail) == Read(c, tail)
  {
    if IsSpecial(c) {
      SpecialRead(c, tail);
    } else if ' ' <= c <= '~' {
      PlainRead(c, tail);
    } else if c as int < 0x1_0000 {
      BasicRead(c as int, tail);
    } else {
      WideRead(c, tail);
    }
  }

  lemma TextStep(s: string, c: char, rest: string, t: string, tail: string)
    requires s != "" && s[0] != '"' && ParseChar(s) == Read(c, rest) && ParseText(rest) == Read(t, tail)
    ensures ParseText(s) == Read([c] + t, tail)
  {
  }

  lemma EscapeFront(t: string, tail: string)
    requires t != ""
    ensures Escape(t) + "\"" + tail == EscapeChar(t[0]) + (Escape(t[1..]) + "\"" + tail)
  {
  }

  lemma TextEnd(tail: string)
    ensures ParseText("\"" + tail) == Read("", tail)
  {
    assert ("\"" + tail)[1..] == tail;
  }

  lemma {:induction false} TextRead(t: string, tail: string)
    ensures ParseText(Escape(t) + "\"" + tail) == Read(t, tail)
  {
    if t == "" {
      TextEnd(tail);
      assert Escape(t) + "\"" + tail == "\"" + tail;
    } else {
      var rest := Escape(t[1..]) + "\"" + tail;
      EscapeFront(t, tail);
      CharRead(t[0], rest);
      TextRead(t[1..], tail);
      TextStep(EscapeChar(t[0]) + rest, t[0], rest, t[1..], tail);
      assert t == [t[0]] + t[1..];
    }
  }

  // ---------- numbers ----------

  predicate NumberChars(s: string) {
    forall i :: 0 <= i < |s| ==> IsNumberChar(s[i])
  }

  lemma {:induction false} AfterDigitsChars(s: string)
    requires NumberChars(AfterDigits(s))
    ensures NumberChars(s)
  {
    if s != "" && IsDigit(s[0]) {
      AfterDigitsChars(s[1..]);
      assert s == [s[0]] + s[1..];
    }
  }

  lemma ExponentChars(s: string)
    requires IsExponent(s)
    ensures NumberChars(s)
  {
    if s != "" {
      var t := if |s| > 1 && (s[1] == '+' || s[1] == '-') then s[2..] else s[1..];
      AfterDigitsChars(t);
      assert s == s[..|s| - |t|] + t;
    }
  }

  lemma FractionChars(s: string)
    requires IsFraction(s)
    ensures NumberChars(s)
  {
    if s != "" && s[0] == '.' {
      ExponentChars(AfterDigits(s[1..]));
      AfterDigitsChars(s[1..]);
      assert s == [s[0]] + s[1..];
    } else {
      ExponentChars(s);
    }
  }

  lemma LiteralChars(s: string)
    requires IsNumber(s)
    ensures NumberChars(s) && s != "" && (IsDigit(s[0]) || s[0] == '-')
  {
    var t := if s != "" && s[0] == '-' then s[1..] else s;
    if t[0] == '0' {
      FractionChars(t[1..]);
      assert t == [t[0]] + t[1..];
    } else {
      FractionChars(AfterDigits(t));
      AfterDigitsChars(t);
    }
    assert s == s[..|s| - |t|] + t;
  }

  lemma {:induction false} NumberEndRead(s: string, tail: string)
    requires NumberChars(s) && Ends(tail)
    ensures NumberEnd(s + tail) == |s|
  {
    if s == "" {
      assert s + tail == tail;
    } else {
      assert (s + tail)[1..] == s[1..] + tail;
      NumberEndRead(s[1..], tail);
    }
  }

  lemma NumberRead(literal: string, tail: string)
    requires IsNumber(literal) && Ends(tail)
    ensures ParseNumber(literal + tail) == Read(Number(literal), tail)
  {
    LiteralChars(literal);
    NumberEndRead(literal, tail);
    assert (literal + tail)[..|literal|] == literal && (literal + tail)[|literal|..] == tail;
  }

  /** s starts with a value: neither white space nor a closing bracket. */
  predicate Starts(s: string) {
    s != "" && !IsSpace(s[0]) && s[0] != ']' && s[0] != '}'
  }

  lemma DumpsStarts(v: Value)
    requires Sane(v)
    ensures Starts(Dumps(v))
  {
    if v.Number? {
      LiteralChars(v.literal);
    }
  }

  // ---------- one step of the parser ----------

  function AsArray(p: Parsed<seq<Value>>): Parsed<Value> {
    match p
    case Fail => Fail
    case Read(vs, rest) => Read(Array(vs), rest)
  }

  function AsObject(p: Parsed<seq<Member>>): Parsed<Value> {
    match p
    case Fail => Fail
    case Read(ms, rest) => Read(Object(ms), rest)
  }

  function AsText(p: Parsed<string>): Parsed<Value> {
    match p
    case Fail => Fail
    case Read(text, rest) => Read(Text(text), rest)
  }

  function AsMember(key: string, p: Parsed<Value>): Parsed<Member> {
    match p
    case Fail => Fail
    case Read(v, rest) => Read(Member(key, v), rest)
  }

  function Cons(v: Value, p: Parsed<seq<Value>>): Parsed<seq<Value>> {
    match p
    case Fail => Fail
    case Read(vs, rest) => Read([v] + vs, rest)
  }

  /** The members read so far, and those still to come. */
  function Prepend(members: seq<Member>, p: Parsed<seq<Member>>): Parsed<seq<Member>> {
    match p
    case Fail => Fail
    case Read(ms, rest) => Read(members + ms, rest)
  }

  lemma ArrayOpens(body: string)
    ensures ParseValue("[" + body) == AsArray(ParseArray(body))
  {
    assert ("[" + body)[1..] == body;
  }

  lemma ObjectOpens(body: string)
    ensures ParseValue("{" + body) == AsObject(ParseObject(body))
  {
    assert ("{" + body)[1..] == body;
  }

  lemma TextOpens(body: string)
    ensures ParseValue("\"" + body) == AsText(ParseText(body))
  {
    assert ("\"" + body)[1..] == body;
  }

  /** What becomes of a list whose first value v is read, leaving rest. */
  function ItemsFrom(v: Value, rest: string): Parsed<seq<Value>> {
    if rest == "" then Fail
    else if rest[0] == ']' then Read([v], rest[1..])
    else if rest[0] == ',' then
      Cons(v, ParseItems(rest[1..]))
    else Fail
  }

  lemma ItemsStep(s: string, v: Value, rest: string)
    requires ParseValue(s) == Read(v, rest) && Skip(rest) == rest
    ensures ParseItems(s) == ItemsFrom(v, rest)
  {
  }

  function MembersFrom(m: Member, rest: string): Parsed<seq<Member>> {
    if rest == "" then Fail
    else if rest[0] == '}' then Read([m], rest[1..])
    else if rest[0] == ',' then
      Prepend([m], ParseMembers(rest[1..]))
    else Fail
  }

  lemma MembersStep(s: string, m: Member, rest: string)
    requires ParseMember(s) == Read(m, rest) && Skip(rest) == rest
    ensures ParseMembers(s) == MembersFrom(m, rest)
  {
  }

  lemma MemberStep(s: string, key: string, colon: string)
    requires s != "" && s[0] == '"' && ParseText(s[1..]) == Read(key, colon) && colon != "" && colon[0] == ':'
    ensures ParseMember(s) == AsMember(key, ParseValue(colon[1..]))
  {
  }

  /** A blank in front of a value, of a list or of members changes nothing. */
  lemma BlankSkipped(s: string)
    ensures ParseValue(" " + s) == ParseValue(s)
    ensures ParseMember(" " + s) == ParseMember(s)
  {
    assert (" " + s)[1..] == s;
    assert Skip(" " + s) == Skip(s);
  }

  lemma BlankBeforeList(s: string)
    ensures ParseItems(" " + s) == ParseItems(s)
    ensures ParseMembers(" " + s) == ParseMembers(s)
  {
    BlankSkipped(s);
  }

  // ---------- values ----------

  lemma WordRead(v: Value, tail: string)
    requires v.Null? || v.Bool?
    ensures ParseValue(Dumps(v) + tail) == Read(v, tail)
  {
    var s := Dumps(v) + tail;
    assert Skip(s) == s;
    assert Dumps(v) <= s && s[|Dumps(v)|..] == tail;
  }

  lemma LiteralRead(literal: string, tail: string)
    requires IsNumber(literal) && Ends(tail)
    ensures ParseValue(literal + tail) == Read(Number(literal), tail)
  {
    LiteralChars(literal);
    NumberRead(literal, tail);
    var s := literal + tail;
    assert s[0] == literal[0];
    assert Skip(s) == s;
    assert ParseValue(s) == ParseNumber(s);
  }

  lemma QuoteText(text: string, tail: string)
    ensures Quote(text) + tail == "\"" + (Escape(text) + "\"" + tail)
  {
  }

  lemma QuotedRead(text: string, tail: string)
    ensures ParseValue(Quote(text) + tail) == Read(Text(text), tail)
  {
    TextRead(text, tail);
    QuoteText(text, tail);
    TextOpens(Escape(text) + "\"" + tail);
  }

  lemma ArrayText(items: seq<Value>, tail: string)
    ensures Dumps(Array(items)) + tail == "[" + (Items(items, ", ") + ("]" + tail)) && ("]" + tail)[1..] == tail
  {
  }

  lemma ObjectText(members: seq<Member>, tail: string)
    ensures Dumps(Object(members)) + tail == "{" + (Members(members) + ("}" + tail)) && ("}" + tail)[1..] == tail
  {
  }

  lemma {:induction false} ValueRead(v: Value, tail: string)
    requires Sane(v) && Ends(tail)
    ensures ParseValue(Dumps(v) + tail) == Read(v, tail)
    decreases v, 0
  {
    match v
    case Array(items) =>
      ArrayText(items, tail);
      ArrayRead(items, ", ", "]" + tail);
      ArrayOpens(Items(items, ", ") + ("]" + tail));
    case Object(members) =>
      ObjectText(members, tail);
      ObjectRead(members, "}" + tail);
      ObjectOpens(Members(members) + ("}" + tail));
    case Number(literal) => LiteralRead(literal, tail);
    case Text(text) => QuotedRead(text, tail);
    case _ => WordRead(v, tail);
  }

  lemma Regroup(a: string, b: string, c: string, d: string)
    ensures a + b + c + d == a + (b + (c + d))
  {
  }

  lemma ItemsText(items: seq<Value>, separator: string, after: string)
    requires |items| > 1
    ensures Items(items, separator) + after == Dumps(items[0]) + (separator + (Items(items[1..], separator) + after))
  {
  }

  lemma ItemsStart(items: seq<Value>, separator: string, after: string)
    requires items != [] && Sane(items[0])
    ensures ParseArray(Items(items, separator) + after) == ParseItems(Items(items, separator) + after)
  {
    DumpsStarts(items[0]);
    var s := Items(items, separator) + after;
    assert s[0] == Dumps(items[0])[0];
    assert Skip(s) == s;
  }

  lemma {:induction false} ArrayRead(items: seq<Value>, separator: string, after: string)
    requires forall i :: 0 <= i < |items| ==> Sane(items[i])
    requires (separator == "," || separator == ", ") && (after == "" || after[0] == ']')
    ensures ParseArray(Items(items, separator) + after) == if after == "" then Fail else Read(items, after[1..])
    decreases items, 2
  {
    if items == [] {
      assert Items(items, separator) + after == after;
    } else {
      ItemsStart(items, separator, after);
      ItemsRead(items, separator, after);
    }
  }

  lemma SeparatorSkipped(separator: string, more: string)
    requires separator == "," || separator == ", "
    ensures (separator + more)[0] == ',' && ParseItems((separator + more)[1..]) == ParseItems(more)
    ensures Skip(separator + more) == separator + more && Ends(separator + more)
  {
    if separator == "," {
      assert (separator + more)[1..] == more;
    } else {
      assert (separator + more)[1..] == " " + more;
      BlankBeforeList(more);
    }
  }

  lemma ItemsFront(s: string, v: Value, separator: string, more: string)
    requires separator == "," || separator == ", "
    requires ParseValue(s) == Read(v, separator + more)
    ensures ParseItems(s) == Cons(v, ParseItems(more))
  {
    SeparatorSkipped(separator, more);
    ItemsStep(s, v, separator + more);
  }

  /** Items are read up to the closing bracket; if the text ends before it, nothing is. */
  lemma {:induction false} ItemsRead(items: seq<Value>, separator: string, after: string)
    requires items != [] && forall i :: 0 <= i < |items| ==> Sane(items[i])
    requires (separator == "," || separator == ", ") && (after == "" || after[0] == ']')
    ensures ParseItems(Items(items, separator) + after) == if after == "" then Fail else Read(items, after[1..])
    decreases items, 1
  {
    if |items| == 1 {
      ValueRead(items[0], after);
      ItemsStep(Dumps(items[0]) + after, items[0], after);
      assert items == [items[0]];
    } else {
      var more := Items(items[1..], separator) + after;
      ItemsText(items, separator, after);
      assert Ends(separator + more);
      ValueRead(items[0], separator + more);
      ItemsFront(Dumps(items[0]) + (separator + more), items[0], separator, more);
      ItemsRead(items[1..], separator, after);
      assert items == [items[0]] + items[1..];
    }
  }

  lemma MembersText(members: seq<Member>, after: string)
    requires |members| > 1
    ensures Members(members) + after == Pair(members[0]) + (", " + (Members(members[1..]) + after))
  {
    assert Members(members) == Pair(members[0]) + ", " + Members(members[1..]);
    Regroup(Pair(members[0]), ", ", Members(members[1..]), after);
  }

  lemma PairStarts(m: Member)
    ensures Pair(m) != "" && Pair(m)[0] == '"'
  {
    assert Quote(m.key)[0] == '"';
  }

  lemma QuoteOpens(s: string)
    requires s != "" && s[0] == '"'
    ensures ParseObject(s) == ParseMembers(s)
  {
    assert Skip(s) == s;
  }

  lemma MembersStart(members: seq<Member>, after: string)
    requires members != []
    ensures ParseObject(Members(members) + after) == ParseMembers(Members(members) + after)
  {
    PairStarts(members[0]);
    if |members| > 1 {
      MembersText(members, after);
    }
    QuoteOpens(Members(members) + after);
  }

  lemma {:induction false} ObjectRead(members: seq<Member>, after: string)
    requires forall i :: 0 <= i < |members| ==> Sane(members[i].value)
    requires after != "" && after[0] == '}'
    ensures ParseObject(Members(members) + after) == Read(members, after[1..])
    decreases members, 2
  {
    if members == [] {
      assert Members(members) + after == after;
    } else {
      MembersStart(members, after);
      MembersRead(members, after);
    }
  }

  lemma PairText(m: Member, tail: string)
    ensures var s := Pair(m) + tail;
            s[0] == '"' && s[1..] == Escape(m.key) + "\"" + (":" + (" " + (Dumps(m.value) + tail)))
  {
  }

  lemma {:induction false} MemberRead(m: Member, tail: string)
    requires Sane(m.value) && Ends(tail)
    ensures ParseMember(Pair(m) + tail) == Read(m, tail)
    decreases m, 1
  {
    var value := Dumps(m.value) + tail;
    PairText(m, tail);
    TextRead(m.key, ":" + (" " + value));
    BlankSkipped(value);
    ValueRead(m.value, tail);
    assert (":" + (" " + value))[1..] == " " + value;
    MemberStep(Pair(m) + tail, m.key, ":" + (" " + value));
  }

  lemma CommaSkipped(more: string)
    ensures (", " + more)[0] == ',' && ParseMembers((", " + more)[1..]) == ParseMembers(more)
    ensures Skip(", " + more) == ", " + more && Ends(", " + more)
  {
    assert (", " + more)[1..] == " " + more;
    BlankBeforeList(more);
  }

  lemma MembersFront(s: string, m: Member, more: string)
    requires ParseMember(s) == Read(m, ", " + more)
    ensures ParseMembers(s) == Prepend([m], ParseMembers(more))
  {
    CommaSkipped(more);
    MembersStep(s, m, ", " + more);
  }

  /** What members read as in front of `after`: all up to a closing brace, or on past a comma. */
  function ReadsOn(members: seq<Member>, after: string): Parsed<seq<Member>>
    requires after != ""
  {
    if after[0] == '}' then Read(members, after[1..]) else Prepend(members, ParseMembers(after[1..]))
  }

  lemma ReadsOnBoth(m: Member, members: seq<Member>, after: string)
    requires after != ""
    ensures Prepend([m], ReadsOn(members, after)) == ReadsOn([m] + members, after)
  {
    var p := ParseMembers(after[1..]);
    if p.Read? {
      assert [m] + (members + p.value) == [m] + members + p.value;
    }
  }

  lemma {:induction false} MembersRead(members: seq<Member>, after: string)
    requires members != [] && forall i :: 0 <= i < |members| ==> Sane(members[i].value)
    requires after != "" && (after[0] == '}' || after[0] == ',')
    ensures ParseMembers(Members(members) + after) == ReadsOn(members, after)
    decreases members, 1
  {
    if |members| == 1 {
      MemberRead(members[0], after);
      MembersStep(Pair(members[0]) + after, members[0], after);
      assert members == [members[0]];
    } else {
      var more := Members(members[1..]) + after;
      MembersText(members, after);
      assert Ends(", " + more);
      MemberRead(members[0], ", " + more);
      MembersFront(Pair(members[0]) + (", " + more), members[0], more);
      MembersRead(members[1..], after);
      ReadsOnBoth(members[0], members[1..], after);
      assert members == [members[0]] + members[1..];
    }
  }

  /** json.loads(json.dumps(v)) == v, for every value. */
  lemma RoundTrip(v: Value)
    requires Sane(v)
    ensures Loads(Dumps(v)) == Read(v, "")
  {
    ValueRead(v, "");
    assert Dumps(v) + "" == Dumps(v);
  }
}
