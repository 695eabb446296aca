/** Streamed JSON reports: the chunks form one document, and a failed stream never forms any. */
module StreamingJson {
  import opened Json
  import opened JsonRoundTrip
  import opened JsonScan

  /** What the row iterator yields: a row, or an exception from it or from writing the row. */
  datatype Pull = Row(members: seq<Member>) | Failure

  datatype Stats = NoStats | SomeStats(members: seq<Member>)

  predicate SaneMembers(members: seq<Member>) {
    forall i :: 0 <= i < |members| ==> Sane(members[i].value)
  }

  /** The key needs no escaping: it is put between quotes as it is. */
  predicate PlainKey(key: string) {
    forall i :: 0 <= i < |key| ==> key[i] >= ' ' && key[i] != '"' && key[i] != '\\'
  }

  /** The rows up to the first failure. */
  function Delivered(pulls: seq<Pull>): seq<Value> {
    if pulls == [] || pulls[0].Failure? then [] else [Object(pulls[0].members)] + Delivered(pulls[1..])
  }

  predicate Fails(pulls: seq<Pull>) {
    exists i :: 0 <= i < |pulls| && pulls[i].Failure?
  }

  function Join(chunks: seq<string>): string {
    if chunks == [] then "" else Join(chunks[..|chunks| - 1]) + chunks[|chunks| - 1]
  }

  /** {head}{sep}"{data_key}":[ */
  function Opening(meta: seq<Member>, key: string): string {
    var head := Dumps(Object(meta));
    head[..|head| - 1] + (if meta == [] then "" else ",") + "\"" + key + "\":["
  }

  function Closing(stats: Stats): string {
    match stats
    case NoStats => "]}"
    case SomeStats(members) => "],\"stats\":" + Dumps(Object(members)) + "}"
  }

  function StatsMembers(stats: Stats): seq<Member> {
    match stats
    case NoStats => []
    case SomeStats(members) => [Member("stats", Object(members))]
  }

  // ---------- what the text reads as ----------

  lemma OpeningText(meta: seq<Member>, key: string)
    ensures Opening(meta, key) == "{" + (Members(meta) + ((if meta == [] then "" else ",") + ("\"" + key + "\":[")))
  {
    var head := Dumps(Object(meta));
    assert head == "{" + Members(meta) + "}";
    assert head[..|head| - 1] == "{" + Members(meta);
    Regroup("{", Members(meta), if meta == [] then "" else ",", "\"" + key + "\":[");
    assert Opening(meta, key) == "{" + Members(meta) + (if meta == [] then "" else ",") + ("\"" + key + "\":[");
  }

  lemma {:induction false} PlainKeyRead(key: string, tail: string)
    requires PlainKey(key)
    ensures ParseText(key + "\"" + tail) == Read(key, tail)
  {
    if key == "" {
      TextEnd(tail);
      assert key + "\"" + tail == "\"" + tail;
    } else {
      var rest := key[1..] + "\"" + tail;
      assert key + "\"" + tail == [key[0]] + rest && ([key[0]] + rest)[1..] == rest;
      PlainFront(key);
      PlainKeyRead(key[1..], tail);
      TextStep([key[0]] + rest, key[0], rest, key[1..], tail);
      assert key == [key[0]] + key[1..];
    }
  }

  predicate NoQuotes(s: string) {
    forall i :: 0 <= i < |s| ==> s[i] != '"'
  }

  lemma HexHasNoQuotes(s: string)
    requires Hex4(s) != 0x1_0000
    ensures |s| >= 4 && NoQuotes(s[..4])
  {
  }

  /** An escape is at least two characters long, and only that of a quote holds one. */
  lemma EscapeLength(s: string) returns (n: nat)
    requires s != "" && s[0] == '\\' && ParseChar(s).Read?
    ensures 2 <= n <= |s| && ParseChar(s).rest == s[n..]
    ensures ParseChar(s).value != '"' ==> NoQuotes(s[..n])
  {
    n := 2;
    if s[1] == 'u' {
      var t := s[1..][1..];
      assert t == s[2..];
      HexHasNoQuotes(t);
      if IsScalar(Hex4(t)) {
        n := 6;
        assert t[4..] == s[6..] && s[..6] == s[..2] + t[..4];
      } else {
        HexHasNoQuotes(t[6..]);
        n := 12;
        assert t[10..] == s[12..] && s[..12] == s[..2] + t[..4] + t[4..6] + t[6..][..4];
      }
    } else {
      assert s[1..][1..] == s[2..];
    }
  }

  lemma TextFirst(s: string, v: string)
    requires s != "" && ParseText(s).Read? && ParseText(s).value == v && v != ""
    ensures s[0] != '"' && ParseChar(s).Read? && ParseChar(s).value == v[0]
    ensures ParseText(ParseChar(s).rest).Read? && ParseText(ParseChar(s).rest).value == v[1..]
  {
    assert ([v[0]] + v[1..]) == v;
  }

  /** What one character of a string takes; escapes take more than one. */
  lemma CharLength(s: string) returns (n: nat)
    requires s != "" && s[0] != '"' && ParseChar(s).Read?
    ensures 1 <= n <= |s| && ParseChar(s).rest == s[n..] && (s[0] == '\\' ==> n >= 2)
    ensures ParseChar(s).value != '"' ==> NoQuotes(s[..n])
  {
    n := 1;
    if s[0] == '\\' {
      n := EscapeLength(s);
    }
  }

  /** Without a quote among them, the first n characters are the key's. */
  lemma WithinKey(key: string, tail: string, n: nat)
    requires n <= |key + "\"" + tail| && NoQuotes((key + "\"" + tail)[..n])
    ensures n <= |key| && (key + "\"" + tail)[..n] == key[..n] && (key + "\"" + tail)[n..] == key[n..] + "\"" + tail
  {
    assert (key + "\"" + tail)[|key|] == '"';
    assert forall i :: 0 <= i < n ==> (key + "\"" + tail)[..n][i] == (key + "\"" + tail)[i];
  }

  lemma Shifted(key: string, more: string, n: nat)
    requires more != "" && n <= |key|
    ensures (more + key)[0] == more[0] && (more + key)[1..] == more[1..] + key[..n] + key[n..]
  {
  }

  lemma QuotesJoin(a: string, b: string)
    requires NoQuotes(a) && NoQuotes(b) && a != ""
    ensures NoQuotes(a[1..] + b)
  {
  }

  /** Raw text up to a quote never reads as something longer that ends like it, without quotes in front. */
  lemma {:induction false} NeverLonger(key: string, more: string, tail: string)
    requires more != "" && NoQuotes(more)
    ensures !(ParseText(key + "\"" + tail).Read? && ParseText(key + "\"" + tail).value == more + key)
    decreases |key|
  {
    var s := key + "\"" + tail;
    if ParseText(s).Read? && ParseText(s).value == more + key {
      TextFirst(s, more + key);
      var n := CharLength(s);
      WithinKey(key, tail, n);
      Shifted(key, more, n);
      QuotesJoin(more, key[..n]);
      NeverLonger(key[n..], more[1..] + key[..n], tail);
    }
  }

  lemma PlainFront(key: string)
    requires key != ""
    ensures PlainKey(key) <==> key[0] >= ' ' && key[0] != '"' && key[0] != '\\' && PlainKey(key[1..])
  {
    assert forall i :: 0 <= i < |key[1..]| ==> key[1..][i] == key[i + 1];
    assert forall i :: 0 < i < |key| ==> key[i] == key[1..][i - 1];
  }

  lemma CutKey(key: string, n: nat)
    requires 1 < n <= |key| && NoQuotes(key[..n])
    ensures key[1..] == key[1..n] + key[n..] && NoQuotes(key[1..n]) && key[1..n] != ""
  {
    assert forall i :: 0 <= i < |key[1..n]| ==> key[1..n][i] == key[..n][i + 1];
  }

  /** A key that reads back as itself starts with no escape. */
  lemma FirstIsPlain(key: string, tail: string)
    requires key != "" && ParseText(key + "\"" + tail).Read? && ParseText(key + "\"" + tail).value == key
    ensures key[0] >= ' ' && key[0] != '"' && key[0] != '\\'
    ensures ParseText(key[1..] + "\"" + tail).Read? && ParseText(key[1..] + "\"" + tail).value == key[1..]
  {
    var s := key + "\"" + tail;
    TextFirst(s, key);
    var n := CharLength(s);
    WithinKey(key, tail, n);
    if n > 1 {
      CutKey(key, n);
      NeverLonger(key[n..], key[1..n], tail);
    }
    assert s[1..] == key[1..] + "\"" + tail;
  }

  lemma {:induction false} OnlyPlainKeysRead(key: string, tail: string)
    requires ParseText(key + "\"" + tail).Read? && ParseText(key + "\"" + tail).value == key
    ensures PlainKey(key)
  {
    if key != "" {
      FirstIsPlain(key, tail);
      OnlyPlainKeysRead(key[1..], tail);
      PlainFront(key);
    }
  }

  /** Exactly the keys that need no escaping read back as themselves. */
  lemma KeyReadsExactly(key: string, tail: string)
    ensures ParseText(key + "\"" + tail).Read? && ParseText(key + "\"" + tail).value == key <==> PlainKey(key)
    ensures PlainKey(key) ==> ParseText(key + "\"" + tail) == Read(key, tail)
  {
    if PlainKey(key) {
      PlainKeyRead(key, tail);
    } else if ParseText(key + "\"" + tail).Read? && ParseText(key + "\"" + tail).value == key {
      OnlyPlainKeysRead(key, tail);
    }
  }

  /** Parsing from the data key on, given what the array and the rest read as. */
  lemma DataMember(key: string, body: string)
    requires PlainKey(key)
    ensures ParseMember("\"" + key + "\":[" + body) ==
      AsMember(key, AsArray(ParseArray(body)))
  {
    var s := "\"" + key + "\":[" + body;
    var colon := ":[" + body;
    assert s[1..] == key + "\"" + colon;
    PlainKeyRead(key, colon);
    assert colon[1..] == "[" + body;
    ArrayOpens(body);
    MemberStep(s, key, colon);
  }

  lemma MetaThen(meta: seq<Member>, rest: string)
    requires SaneMembers(meta) && rest != "" && rest[0] == '"'
    ensures ParseObject(Members(meta) + ((if meta == [] then "" else ",") + rest)) == Prepend(meta, ParseMembers(rest))
  {
    if meta == [] {
      assert Members(meta) + ("" + rest) == rest;
      QuoteOpens(rest);
      PrependNothing(ParseMembers(rest));
    } else {
      MembersStart(meta, "," + rest);
      MembersRead(meta, "," + rest);
      assert ("," + rest)[1..] == rest;
    }
  }

  lemma PrependNothing(p: Parsed<seq<Member>>)
    ensures Prepend([], p) == p
  {
    if p.Read? {
      assert [] + p.value == p.value;
    }
  }

  function DataText(key: string, body: string): string {
    "\"" + key + "\":[" + body
  }

  lemma DocumentText(meta: seq<Member>, key: string, body: string)
    ensures Opening(meta, key) + body ==
      "{" + (Members(meta) + ((if meta == [] then "" else ",") + DataText(key, body)))
  {
    OpeningText(meta, key);
    Nested("{", Members(meta), if meta == [] then "" else ",", "\"" + key + "\":[", body);
  }

  lemma Nested(a: string, b: string, c: string, d: string, e: string)
    ensures a + (b + (c + d)) + e == a + (b + (c + (d + e)))
  {
  }

  /** The document up to its members. */
  lemma DocumentParses(meta: seq<Member>, key: string, body: string)
    requires SaneMembers(meta)
    ensures ParseValue(Opening(meta, key) + body) ==
      AsObject(Prepend(meta, ParseMembers(DataText(key, body))))
  {
    DocumentText(meta, key, body);
    MetaThen(meta, DataText(key, body));
    ObjectOpens(Members(meta) + ((if meta == [] then "" else ",") + DataText(key, body)));
  }

  lemma TruncatedText(meta: seq<Member>, key: string, body: string)
    ensures Opening(meta, key) + body ==
      "{" + (Members(meta) + (if meta == [] then "" else ",") + "\"" + key + ("\":[" + body))
  {
    OpeningText(meta, key);
    var sep := if meta == [] then "" else ",";
    assert "\"" + key + "\":[" == "\"" + key + ("\":[");
    Regroup(Members(meta), sep, "\"" + key, "\":[" + body);
    Regroup(sep, "\"" + key, "\":[", body);
    Nested("{", Members(meta), sep, "\"" + key + "\":[", body);
    Flatten(Members(meta) + sep, "\"", key, "\":[" + body);
  }

  lemma Flatten(a: string, b: string, c: string, d: string)
    ensures a + b + c + d == a + (b + c) + d
  {
  }

  /** Without the closing bracket the rows never become an array, nor the text a document, whatever the key. */
  lemma TruncatedIsNoDocument(meta: seq<Member>, key: string, rows: seq<Value>)
    requires forall i :: 0 <= i < |rows| ==> Sane(rows[i])
    ensures Loads(Opening(meta, key) + Items(rows, ",")) == Fail
  {
    TruncatedText(meta, key, Items(rows, ","));
    UnclosedIsNoDocument(Members(meta) + (if meta == [] then "" else ",") + "\"" + key, rows);
  }

  lemma StatsMember(v: Value)
    requires Sane(v)
    ensures ParseMember("\"stats\":" + Dumps(v) + "}") == Read(Member("stats", v), "}")
  {
    var value := Dumps(v) + "}";
    StatsIsPlain();
    StatsText(Dumps(v));
    TextRead("stats", ":" + value);
    ValueRead(v, "}");
    MemberStep("\"stats\":" + Dumps(v) + "}", "stats", ":" + value);
  }

  lemma StatsText(value: string)
    ensures var s, colon := "\"stats\":" + value + "}", ":" + (value + "}");
            s[0] == '"' && s[1..] == "stats" + "\"" + colon && colon[1..] == value + "}"
  {
  }

  lemma StatsRead(stats: Stats)
    requires stats.SomeStats? && SaneMembers(stats.members)
    ensures ParseMembers("\"stats\":" + Dumps(Object(stats.members)) + "}") == Read(StatsMembers(stats), "")
  {
    var v := Object(stats.members);
    StatsMember(v);
    MembersStep("\"stats\":" + Dumps(v) + "}", Member("stats", v), "}");
  }

  lemma StatsIsPlain()
    ensures Escape("stats") == "stats"
  {
    assert Escape("s") == "s";
    assert Escape("ts") == "ts";
    assert Escape("ats") == "ats";
    assert Escape("tats") == "tats";
  }

  /** What follows the array. */
  function AfterRows(stats: Stats): string {
    match stats
    case NoStats => "}"
    case SomeStats(members) => "," + ("\"stats\":" + Dumps(Object(members)) + "}")
  }

  lemma ClosingText(stats: Stats)
    ensures Closing(stats) == "]" + AfterRows(stats) && Closing(stats)[1..] == AfterRows(stats)
  {
  }

  lemma RowsRead(key: string, rows: seq<Value>, after: string)
    requires PlainKey(key) && forall i :: 0 <= i < |rows| ==> Sane(rows[i])
    ensures ParseMember(DataText(key, Items(rows, ",") + ("]" + after))) == Read(Member(key, Array(rows)), after)
  {
    ArrayRead(rows, ",", "]" + after);
    assert ("]" + after)[1..] == after;
    DataMember(key, Items(rows, ",") + ("]" + after));
  }

  lemma AfterRowsRead(m: Member, stats: Stats)
    requires stats.SomeStats? ==> SaneMembers(stats.members)
    ensures MembersFrom(m, AfterRows(stats)) == Read([m] + StatsMembers(stats), "")
    ensures Skip(AfterRows(stats)) == AfterRows(stats)
  {
    match stats
    case NoStats => assert [m] + StatsMembers(stats) == [m] && "}"[1..] == "";
    case SomeStats(members) =>
      assert AfterRows(stats)[1..] == "\"stats\":" + Dumps(Object(members)) + "}";
      StatsRead(stats);
  }

  lemma ClosingRead(key: string, rows: seq<Value>, stats: Stats)
    requires stats.SomeStats? ==> SaneMembers(stats.members)
    requires PlainKey(key) && forall i :: 0 <= i < |rows| ==> Sane(rows[i])
    ensures ParseMembers(DataText(key, Items(rows, ",") + Closing(stats))) ==
      Read([Member(key, Array(rows))] + StatsMembers(stats), "")
  {
    var m := Member(key, Array(rows));
    ClosingText(stats);
    RowsRead(key, rows, AfterRows(stats));
    AfterRowsRead(m, stats);
    MembersStep(DataText(key, Items(rows, ",") + Closing(stats)), m, AfterRows(stats));
  }

  /** The complete text is a document with exactly the members of meta, the rows under the data key, and
      the statistics if there are any. */
  lemma CompleteDocument(meta: seq<Member>, key: string, rows: seq<Value>, stats: Stats)
    requires SaneMembers(meta) && PlainKey(key) && forall i :: 0 <= i < |rows| ==> Sane(rows[i])
    requires stats.SomeStats? ==> SaneMembers(stats.members)
    ensures Loads(Opening(meta, key) + (Items(rows, ",") + Closing(stats))) ==
      Read(Object(meta + ([Member(key, Array(rows))] + StatsMembers(stats))), "")
  {
    ClosingRead(key, rows, stats);
    DocumentParses(meta, key, Items(rows, ",") + Closing(stats));
  }

  /** If the members from the data key on can be read at all, the first has the key that the text reads as. */
  lemma FirstKey(key: string, body: string)
    requires ParseMembers(DataText(key, body)).Read?
    ensures var p := ParseText(key + "\"" + (":[" + body));
            p.Read? && ParseMembers(DataText(key, body)).value[0].key == p.value
  {
    var s := DataText(key, body);
    assert s[0] == '"' && s[1..] == key + "\"" + (":[" + body);
    assert Skip(s) == s;
  }

  lemma PrependAgrees(meta: seq<Member>, ms: seq<Member>, m: Member, more: seq<Member>)
    requires meta + ms == meta + ([m] + more)
    ensures ms != [] && ms[0] == m
  {
    assert (meta + ms)[|meta|..] == ms && (meta + ([m] + more))[|meta|..] == [m] + more;
  }

  /** The client parses the whole report. */
  ghost predicate ReadsReport(text: string, meta: seq<Member>, key: string, rows: seq<Value>, stats: Stats) {
    Loads(text) == Read(Object(meta + ([Member(key, Array(rows))] + StatsMembers(stats))), "")
  }

  /** The complete text is the report's document if and only if the data key needs no escaping. */
  lemma DocumentExactly(meta: seq<Member>, key: string, rows: seq<Value>, stats: Stats)
    requires SaneMembers(meta) && forall i :: 0 <= i < |rows| ==> Sane(rows[i])
    requires stats.SomeStats? ==> SaneMembers(stats.members)
    ensures ReadsReport(Opening(meta, key) + (Items(rows, ",") + Closing(stats)), meta, key, rows, stats) <==>
      PlainKey(key)
  {
    var body, m := Items(rows, ",") + Closing(stats), Member(key, Array(rows));
    if PlainKey(key) {
      CompleteDocument(meta, key, rows, stats);
    } else if Loads(Opening(meta, key) + body) == Read(Object(meta + ([m] + StatsMembers(stats))), "") {
      DocumentParses(meta, key, body);
      PrependAgrees(meta, ParseMembers(DataText(key, body)).value, m, StatsMembers(stats));
      FirstKey(key, body);
      OnlyPlainKeysRead(key, ":[" + body);
    }
  }

  // ---------- the dictionary a client gets ----------

  /** doc[key] after loading: the last member of a name wins. */
  function Lookup(members: seq<Member>, key: string): Parsed<Value> {
    if members == [] then Fail
    else if members[|members| - 1].key == key then Read(members[|members| - 1].value, "")
    else Lookup(members[..|members| - 1], key)
  }

  lemma LookupNext(members: seq<Member>, m: Member, key: string)
    ensures Lookup(members + [m], key) == if m.key == key then Read(m.value, "") else Lookup(members, key)
  {
    assert (members + [m])[..|members|] == members;
  }

  /** The client finds the rows under the data key, unless that is "stats" and statistics follow; it finds the
      statistics, and every entry of meta that uses neither of the two names that the stream adds. */
  lemma ClientSees(meta: seq<Member>, key: string, rows: seq<Value>, stats: Stats, name: string)
    ensures var doc := meta + ([Member(key, Array(rows))] + StatsMembers(stats));
            && (Lookup(doc, key) == Read(Array(rows), "") <==> key != "stats" || stats.NoStats?)
            && (stats.SomeStats? ==> Lookup(doc, "stats") == Read(Object(stats.members), ""))
            && (name != key && (name != "stats" || stats.NoStats?) ==> Lookup(doc, name) == Lookup(meta, name))
  {
    var m := Member(key, Array(rows));
    LookupNext(meta, m, key);
    LookupNext(meta, m, name);
    LookupNext(meta, m, "stats");
    match stats
    case NoStats =>
      assert meta + ([m] + StatsMembers(stats)) == meta + [m];
    case SomeStats(members) =>
      var last := Member("stats", Object(members));
      assert meta + ([m] + StatsMembers(stats)) == meta + [m] + [last];
      LookupNext(meta + [m], last, key);
      LookupNext(meta + [m], last, name);
      LookupNext(meta + [m], last, "stats");
  }

  // ---------- the generator ----------

  ghost predicate SanePulls(pulls: seq<Pull>) {
    forall i :: 0 <= i < |pulls| && pulls[i].Row? ==> SaneMembers(pulls[i].members)
  }

  /** What the client can parse of a stream: nothing if it failed, and otherwise the whole report, exactly if
      the data key needs no escaping. */
  ghost predicate ClientReads(text: string, meta: seq<Member>, key: string, pulls: seq<Pull>, stats: Stats) {
    if Fails(pulls) then Loads(text) == Fail
    else ReadsReport(text, meta, key, Delivered(pulls), stats) <==> PlainKey(key)
  }

  lemma FailsLater(pulls: seq<Pull>, more: seq<Pull>)
    ensures Fails(more) ==> Fails(pulls + more)
  {
    if i :| 0 <= i < |more| && more[i].Failure? {
      assert (pulls + more)[|pulls| + i].Failure?;
    }
  }

  lemma {:induction false} DeliveredNext(pulls: seq<Pull>, i: nat)
    requires i < |pulls| && !Fails(pulls[..i])
    ensures |Delivered(pulls[..i])| == i
    ensures pulls[i].Row? ==>
      Delivered(pulls[..i + 1]) == Delivered(pulls[..i]) + [Object(pulls[i].members)] && !Fails(pulls[..i + 1])
    ensures pulls[i].Failure? ==> Delivered(pulls) == Delivered(pulls[..i]) && Fails(pulls)
  {
    if i > 0 {
      assert pulls[..i][0] == pulls[0] && pulls[0].Row?;
      assert pulls[..i][1..] == pulls[1..][..i - 1] && pulls[..i + 1][1..] == pulls[1..][..i];
      assert pulls[..i] == [pulls[0]] + pulls[1..][..i - 1];
      assert !Fails(pulls[1..][..i - 1]) by {
        FailsLater([pulls[0]], pulls[1..][..i - 1]);
      }
      DeliveredNext(pulls[1..], i - 1);
    }
  }

  lemma {:induction false} ItemsNext(items: seq<Value>, v: Value, separator: string)
    ensures Items(items + [v], separator) ==
      Items(items, separator) + (if items == [] then "" else separator) + Dumps(v)
  {
    if items == [] {
      assert items + [v] == [v];
    } else {
      assert (items + [v])[1..] == items[1..] + [v];
      ItemsNext(items[1..], v, separator);
      if |items| > 1 {
        Nested(Dumps(items[0]), separator, Items(items[1..], separator), separator, Dumps(v));
      }
    }
  }

  lemma JoinNext(chunks: seq<string>, chunk: string)
    ensures Join(chunks + [chunk]) == Join(chunks) + chunk
  {
    assert (chunks + [chunk])[..|chunks|] == chunks;
  }

  lemma {:induction false} DeliveredSane(pulls: seq<Pull>)
    requires SanePulls(pulls)
    ensures forall i :: 0 <= i < |Delivered(pulls)| ==> Sane(Delivered(pulls)[i])
  {
    if pulls != [] && pulls[0].Row? {
      DeliveredSane(pulls[1..]);
    }
  }

  /** generate(): the chunks it yields. If no pull fails, their text reads as the whole report exactly if
      the data key needs no escaping; if one fails, as no document at all. */
  method Generate(meta: seq<Member>, key: string, pulls: seq<Pull>, stats: Stats) returns (chunks: seq<string>)
    requires SaneMembers(meta) && SanePulls(pulls)
    requires stats.SomeStats? ==> SaneMembers(stats.members)
    ensures ClientReads(Join(chunks), meta, key, pulls, stats)
    ensures !Fails(pulls) ==> |chunks| == |pulls| + 2
  {
    DeliveredSane(pulls);
    JoinNext([], Opening(meta, key));
    chunks := [Opening(meta, key)];
    assert [] + [Opening(meta, key)] == chunks;
    var first := true;
    for i := 0 to |pulls|
      invariant !Fails(pulls[..i]) && |chunks| == i + 1
      invariant first <==> Delivered(pulls[..i]) == []
      invariant Join(chunks) == Opening(meta, key) + Items(Delivered(pulls[..i]), ",")
    {
      DeliveredNext(pulls, i);
      match pulls[i]
      case Failure =>
        TruncatedIsNoDocument(meta, key, Delivered(pulls));
        return;
      case Row(members) =>
        var chunk := (if first then "" else ",") + Dumps(Object(members));
        RowChunk(Delivered(pulls[..i]), Object(members), Opening(meta, key), chunk);
        JoinNext(chunks, chunk);
        chunks := chunks + [chunk];
        first := false;
    }
    assert pulls[..|pulls|] == pulls;
    DocumentExactly(meta, key, Delivered(pulls), stats);
    JoinNext(chunks, Closing(stats));
    ConcatAssociates(Opening(meta, key), Items(Delivered(pulls), ","), Closing(stats));
    chunks := chunks + [Closing(stats)];
  }

  lemma ConcatAssociates(a: string, b: string, c: string)
    ensures a + b + c == a + (b + c)
  {
  }

  lemma RowChunk(rows: seq<Value>, row: Value, opening: string, chunk: string)
    requires chunk == (if rows == [] then "" else ",") + Dumps(row)
    ensures (opening + Items(rows, ",")) + chunk == opening + Items(rows + [row], ",")
  {
    var sep := if rows == [] then "" else ",";
    ItemsNext(rows, row, ",");
    RegroupRow(opening, Items(rows, ","), sep, Dumps(row));
  }

  lemma RegroupRow(a: string, b: string, c: string, d: string)
    ensures a + b + (c + d) == a + (b + c + d)
  {
  }
}
