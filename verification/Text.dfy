/** The string operations the rule grammar and the licence clean-up use. */
module Text {

  /** The characters str.strip() removes. */
  predicate IsSpace(c: char) {
    var n := c as int;
    || 0x09 <= n <= 0x0D || 0x1C <= n <= 0x20 || n == 0x85 || n == 0xA0 || n == 0x1680
    || 0x2000 <= n <= 0x200A || n == 0x2028 || n == 0x2029 || n == 0x202F || n == 0x205F || n == 0x3000
  }

  function StripLeft(s: string): string {
    if s != "" && IsSpace(s[0]) then StripLeft(s[1..]) else s
  }

  function StripRight(s: string): string {
    if s != "" && IsSpace(s[|s| - 1]) then StripRight(s[..|s| - 1]) else s
  }

  function Strip(s: string): string {
    StripRight(StripLeft(s))
  }

  /** Neither end is white space. */
  predicate Trimmed(s: string) {
    s != "" ==> !IsSpace(s[0]) && !IsSpace(s[|s| - 1])
  }

  lemma {:induction false} StripLeftTrims(s: string)
    ensures var r := StripLeft(s); (r != "" ==> !IsSpace(r[0])) && forall c :: c in r ==> c in s
  {
    if s != "" {
      StripLeftTrims(s[1..]);
    }
  }

  lemma {:induction false} StripRightTrims(s: string)
    ensures var r := StripRight(s);
            r <= s && (r != "" ==> !IsSpace(r[|r| - 1])) && forall c :: c in r ==> c in s
  {
    if s != "" {
      StripRightTrims(s[..|s| - 1]);
    }
  }

  lemma StripTrims(s: string)
    ensures Trimmed(Strip(s))
    ensures forall c :: c in Strip(s) ==> c in s
  {
    var l := StripLeft(s);
    StripLeftTrims(s);
    StripRightTrims(l);
    var r := StripRight(l);
    if r != "" {
      assert r[0] == l[0];
    }
  }

  lemma StripKeepsTrimmed(s: string)
    requires Trimmed(s)
    ensures Strip(s) == s
  {
  }

  // ---------- splitting and joining ----------

  /** s.split(sep): always at least one part. */
  function Split(s: string, sep: char): (parts: seq<string>)
    ensures |parts| >= 1
  {
    if s == "" then [""]
    else
      var rest := Split(s[1..], sep);
      if s[0] == sep then [""] + rest else [[s[0]] + rest[0]] + rest[1..]
  }

  /** sep.join(parts) */
  function Join(parts: seq<string>, sep: char): string {
    if parts == [] then ""
    else if |parts| == 1 then parts[0]
    else parts[0] + [sep] + Join(parts[1..], sep)
  }

  lemma {:induction false} SplitParts(s: string, sep: char)
    ensures forall i :: 0 <= i < |Split(s, sep)| ==> sep !in Split(s, sep)[i]
  {
    if s != "" {
      SplitParts(s[1..], sep);
      var rest := Split(s[1..], sep);
      assert Split(s, sep)[1..] == if s[0] == sep then rest else rest[1..];
    }
  }

  lemma {:induction false} SplitPlain(s: string, sep: char)
    requires sep !in s
    ensures Split(s, sep) == [s]
  {
    if s != "" {
      SplitPlain(s[1..], sep);
      assert s[0] in s && [s[0]] + s[1..] == s;
    }
  }

  lemma {:induction false} SplitAfter(a: string, sep: char, b: string)
    requires sep !in a
    ensures Split(a + [sep] + b, sep) == [a] + Split(b, sep)
  {
    var s := a + [sep] + b;
    if a == "" {
      assert s[1..] == b;
    } else {
      assert s[1..] == a[1..] + [sep] + b;
      SplitAfter(a[1..], sep, b);
      assert [s[0]] + a[1..] == a;
    }
  }

  /** Splitting undoes joining. */
  lemma {:induction false} SplitJoin(parts: seq<string>, sep: char)
    requires parts != [] && forall p :: p in parts ==> sep !in p
    ensures Split(Join(parts, sep), sep) == parts
  {
    assert parts[0] in parts;
    if |parts| == 1 {
      SplitPlain(parts[0], sep);
    } else {
      SplitJoin(parts[1..], sep);
      SplitAfter(parts[0], sep, Join(parts[1..], sep));
    }
  }

  // ---------- searching ----------

  /** s.split(sep, maxsplit=1): the text before and after the first separator. */
  function Cut(s: string, sep: char): (r: (string, string))
    requires sep in s
    ensures s == r.0 + [sep] + r.1 && sep !in r.0
  {
    if s[0] == sep then ("", s[1..])
    else
      var r := Cut(s[1..], sep);
      ([s[0]] + r.0, r.1)
  }

  lemma {:induction false} CutUnique(a: string, sep: char, b: string)
    requires sep !in a
    ensures sep in a + [sep] + b && Cut(a + [sep] + b, sep) == (a, b)
  {
    var s := a + [sep] + b;
    assert s[|a|] == sep;
    if a == "" {
      assert s[1..] == b;
    } else {
      assert s[1..] == a[1..] + [sep] + b;
      CutUnique(a[1..], sep, b);
      assert s[0] == a[0] && a[0] in a && [a[0]] + a[1..] == a;
    }
  }

  /** s.replace(old, new) for single characters. */
  function Replace(s: string, was: char, now: char): (r: string)
    ensures |r| == |s|
  {
    if s == "" then "" else [if s[0] == was then now else s[0]] + Replace(s[1..], was, now)
  }

  lemma {:induction false} ReplaceRemoves(s: string, was: char, now: char)
    ensures was != now ==> was !in Replace(s, was, now)
    ensures forall c :: c in Replace(s, was, now) ==> c in s || c == now
  {
    if s != "" {
      ReplaceRemoves(s[1..], was, now);
    }
  }

  lemma {:induction false} ReplaceNothing(s: string, was: char, now: char)
    requires was !in s
    ensures Replace(s, was, now) == s
  {
    if s != "" {
      ReplaceNothing(s[1..], was, now);
      assert s[0] in s && [s[0]] + s[1..] == s;
    }
  }
}
