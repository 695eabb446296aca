/** JSON values, the text json.dumps gives them, and the grammar of RFC 8259 as a parser. */
module Json {

  datatype Member = Member(key: string, value: Value)

  /** A number is kept as its literal. */
  datatype Value =
    | Null
    | Bool(truth: bool)
    | Number(literal: string)
    | Text(text: string)
    | Array(items: seq<Value>)
    | Object(members: seq<Member>)

  datatype Parsed<T> = Fail | Read(value: T, rest: string)

  // ---------- characters ----------

  function HexDigit(d: nat): char
    requires d < 16
  {
    ['0', '1', '2', '3', '4', '5', '6', '7', '8', '9', 'a', 'b', 'c', 'd', 'e', 'f'][d]
  }

  /** The value of a hex digit of either case; 16 for any other character. */
  function HexValue(c: char): nat {
    if '0' <= c <= '9' then c as int - '0' as int
    else if 'a' <= c <= 'f' then c as int - 'a' as int + 10
    else if 'A' <= c <= 'F' then c as int - 'A' as int + 10
    else 16
  }

  /** \uXXXX */
  function Unicode(n: nat): string
    requires n < 0x1_0000
  {
    ['\\', 'u', HexDigit(n / 4096), HexDigit(n / 256 % 16), HexDigit(n / 16 % 16), HexDigit(n % 16)]
  }

  function HighSurrogate(n: nat): (high: nat)
    requires 0x1_0000 <= n < 0x11_0000
    ensures 0xD800 <= high < 0xDC00
  {
    0xD800 + (n - 0x1_0000) / 1024
  }

  function LowSurrogate(n: nat): (low: nat)
    requires 0x1_0000 <= n < 0x11_0000
    ensures 0xDC00 <= low < 0xE000
  {
    0xDC00 + (n - 0x1_0000) % 1024
  }

  /** The character a surrogate pair stands for. */
  function Combine(high: nat, low: nat): char
    requires 0xD800 <= high < 0xDC00 && 0xDC00 <= low < 0xE000
  {
    (0x1_0000 + (high - 0xD800) * 1024 + (low - 0xDC00)) as char
  }

  /** json.dumps with ensure_ascii: beyond the basic plane a surrogate pair. */
  function EscapeChar(c: char): string {
    match c
    case '"' => "\\\""
    case '\\' => "\\\\"
    case '\n' => "\\n"
    case '\r' => "\\r"
    case '\t' => "\\t"
    case '\U{8}' => "\\b"
    case '\U{c}' => "\\f"
    case _ =>
      var n := c as int;
      if ' ' <= c <= '~' then [c]
      else if n < 0x1_0000 then Unicode(n)
      else Unicode(HighSurrogate(n)) + Unicode(LowSurrogate(n))
  }

  function Escape(s: string): string {
    if s == "" then "" else EscapeChar(s[0]) + Escape(s[1..])
  }

  function Quote(s: string): string {
    "\"" + Escape(s) + "\""
  }

  // ---------- writing ----------

  /** json.dumps, with its separators ", " and ": ". */
  function Dumps(v: Value): string
    decreases v
  {
    match v
    case Null => "null"
    case Bool(truth) => if truth then "true" else "false"
    case Number(literal) => literal
    case Text(text) => Quote(text)
    case Array(items) => "[" + Items(items, ", ") + "]"
    case Object(members) => "{" + Members(members) + "}"
  }

  function Items(items: seq<Value>, separator: string): string
    decreases items
  {
    if items == [] then ""
    else if |items| == 1 then Dumps(items[0])
    else Dumps(items[0]) + separator + Items(items[1..], separator)
  }

  function Pair(m: Member): string
    decreases m, 0
  {
    Quote(m.key) + ": " + Dumps(m.value)
  }

  function Members(members: seq<Member>): string
    decreases members
  {
    if members == [] then ""
    else if |members| == 1 then Pair(members[0])
    else Pair(members[0]) + ", " + Members(members[1..])
  }

  // ---------- the grammar ----------

  predicate IsDigit(c: char) {
    '0' <= c <= '9'
  }

  /** One or more digits; what follows them must satisfy nothing. */
  function AfterDigits(s: string): (r: string)
    ensures |r| <= |s| && (r != "" ==> !IsDigit(r[0]))
  {
    if s != "" && IsDigit(s[0]) then AfterDigits(s[1..]) else s
  }

  predicate IsExponent(s: string) {
    s == "" || ((s[0] == 'e' || s[0] == 'E') &&
      var t := if |s| > 1 && (s[1] == '+' || s[1] == '-') then s[2..] else s[1..];
      t != "" && AfterDigits(t) == "")
  }

  predicate IsFraction(s: string) {
    if s != "" && s[0] == '.' then |s| > 1 && IsDigit(s[1]) && IsExponent(AfterDigits(s[1..]))
    else IsExponent(s)
  }

  /** Section 6: [ minus ] int [ frac ] [ exp ] */
  predicate IsNumber(s: string) {
    var t := if s != "" && s[0] == '-' then s[1..] else s;
    t != "" && IsDigit(t[0]) && IsFraction(if t[0] == '0' then t[1..] else AfterDigits(t))
  }

  predicate IsNumberChar(c: char) {
    IsDigit(c) || c == '-' || c == '+' || c == '.' || c == 'e' || c == 'E'
  }

  predicate IsSpace(c: char) {
    c == ' ' || c == '\t' || c == '\n' || c == '\r'
  }

  function Skip(s: string): (r: string)
    ensures |r| <= |s|
  {
    if s != "" && IsSpace(s[0]) then Skip(s[1..]) else s
  }

  /** The longest start of s that looks like a number. */
  function NumberEnd(s: string): (n: nat)
    ensures n <= |s|
  {
    if s != "" && IsNumberChar(s[0]) then 1 + NumberEnd(s[1..]) else 0
  }

  function ParseNumber(s: string): (p: Parsed<Value>)
    ensures p.Read? ==> |p.rest| < |s|
  {
    var n := NumberEnd(s);
    if n > 0 && IsNumber(s[..n]) then Read(Number(s[..n]), s[n..]) else Fail
  }

  /** The four hex digits at the front of s; 0x1_0000 if they are not there. */
  function Hex4(s: string): nat {
    if |s| < 4 then 0x1_0000
    else if HexValue(s[0]) == 16 || HexValue(s[1]) == 16 || HexValue(s[2]) == 16 || HexValue(s[3]) == 16 then 0x1_0000
    else HexValue(s[0]) * 4096 + HexValue(s[1]) * 256 + HexValue(s[2]) * 16 + HexValue(s[3])
  }

  predicate IsScalar(n: nat) {
    n < 0xD800 || 0xE000 <= n < 0x1_0000
  }

  /** After "\u": one code unit, or a surrogate pair; a lone surrogate is no character. */
  function ParseUnicode(s: string): (p: Parsed<char>)
    ensures p.Read? ==> |p.rest| < |s|
  {
    var n := Hex4(s);
    if n == 0x1_0000 then Fail
    else if IsScalar(n) then Read(n as char, s[4..])
    else if n < 0xDC00 && |s| >= 10 && s[4] == '\\' && s[5] == 'u' && 0xDC00 <= Hex4(s[6..]) < 0xE000 then
      Read(Combine(n, Hex4(s[6..])), s[10..])
    else Fail
  }

  /** After a backslash. */
  function ParseEscape(s: string): (p: Parsed<char>)
    ensures p.Read? ==> |p.rest| < |s|
  {
    if s == "" then Fail
    else
      match s[0]
      case '"' => Read('"', s[1..])
      case '\\' => Read('\\', s[1..])
      case '/' => Read('/', s[1..])
      case 'n' => Read('\n', s[1..])
      case 'r' => Read('\r', s[1..])
      case 't' => Read('\t', s[1..])
      case 'b' => Read('\U{8}', s[1..])
      case 'f' => Read('\U{c}', s[1..])
      case 'u' => ParseUnicode(s[1..])
      case _ => Fail
  }

  function ParseChar(s: string): (p: Parsed<char>)
    requires s != ""
    ensures p.Read? ==> |p.rest| < |s|
  {
    if s[0] == '\\' then ParseEscape(s[1..])
    else if s[0] < ' ' then Fail
    else Read(s[0], s[1..])
  }

  /** A string after its opening quote. */
  function ParseText(s: string): (p: Parsed<string>)
    ensures p.Read? ==> |p.rest| < |s|
  {
    if s == "" then Fail
    else if s[0] == '"' then Read("", s[1..])
    else
      match ParseChar(s)
      case Fail => Fail
      case Read(c, rest) =>
        match ParseText(rest)
        case Fail => Fail
        case Read(t, after) => Read([c] + t, after)
  }

  function ParseWord(s: string, word: string, v: Value): (p: Parsed<Value>)
    requires word != ""
    ensures p.Read? ==> |p.rest| < |s|
  {
    if word <= s then Read(v, s[|word|..]) else Fail
  }

  function ParseValue(s: string): (p: Parsed<Value>)
    ensures p.Read? ==> |p.rest| < |s|
    decreases |s|, 1
  {
    var t := Skip(s);
    if t == "" then Fail
    else
      match t[0]
      case '{' =>
        (match ParseObject(t[1..])
         case Fail => Fail
         case Read(ms, rest) => Read(Object(ms), rest))
      case '[' =>
        (match ParseArray(t[1..])
         case Fail => Fail
         case Read(vs, rest) => Read(Array(vs), rest))
      case '"' =>
        (match ParseText(t[1..])
         case Fail => Fail
         case Read(text, rest) => Read(Text(text), rest))
      case 'n' => ParseWord(t, "null", Null)
      case 't' => ParseWord(t, "true", Bool(true))
      case 'f' => ParseWord(t, "false", Bool(false))
      case _ => ParseNumber(t)
  }

  /** After '['. */
  function ParseArray(s: string): (p: Parsed<seq<Value>>)
    ensures p.Read? ==> |p.rest| < |s|
    decreases |s|, 3
  {
    var t := Skip(s);
    if t != "" && t[0] == ']' then Read([], t[1..]) else ParseItems(s)
  }

  /** Values separated by commas, and the closing bracket. */
  function ParseItems(s: string): (p: Parsed<seq<Value>>)
    ensures p.Read? ==> |p.rest| < |s|
    decreases |s|, 2
  {
    match ParseValue(s)
    case Fail => Fail
    case Read(v, rest) =>
      var t := Skip(rest);
      if t == "" then Fail
      else if t[0] == ']' then Read([v], t[1..])
      else if t[0] == ',' then
        match ParseItems(t[1..])
        case Fail => Fail
        case Read(vs, after) => Read([v] + vs, after)
      else Fail
  }

  /** After '{'. */
  function ParseObject(s: string): (p: Parsed<seq<Member>>)
    ensures p.Read? ==> |p.rest| < |s|
    decreases |s|, 4
  {
    var t := Skip(s);
    if t != "" && t[0] == '}' then Read([], t[1..]) else ParseMembers(s)
  }

  /** A key, a colon and a value. */
  function ParseMember(s: string): (p: Parsed<Member>)
    ensures p.Read? ==> |p.rest| < |s|
    decreases |s|, 2
  {
    var t := Skip(s);
    if t == "" || t[0] != '"' then Fail
    else
      match ParseText(t[1..])
      case Fail => Fail
      case Read(key, rest) =>
        var u := Skip(rest);
        if u == "" || u[0] != ':' then Fail
        else
          match ParseValue(u[1..])
          case Fail => Fail
          case Read(v, after) => Read(Member(key, v), after)
  }

  /** Members separated by commas, and the closing brace. */
  function ParseMembers(s: string): (p: Parsed<seq<Member>>)
    ensures p.Read? ==> |p.rest| < |s|
    decreases |s|, 3
  {
    match ParseMember(s)
    case Fail => Fail
    case Read(m, rest) =>
      var t := Skip(rest);
      if t == "" then Fail
      else if t[0] == '}' then Read([m], t[1..])
      else if t[0] == ',' then
        match ParseMembers(t[1..])
        case Fail => Fail
        case Read(ms, after) => Read([m] + ms, after)
      else Fail
  }

  /** A complete document: one value and nothing after it. */
  function Loads(s: string): Parsed<Value> {
    match ParseValue(s)
    case Fail => Fail
    case Read(v, rest) => if Skip(rest) == "" then Read(v, "") else Fail
  }
}
