/** Lists: adding an element once, and joining lists end to end. */
module Lists {

  /** The list with the element, added at the end if it is not there yet. */
  function With<T(==)>(xs: seq<T>, x: T): seq<T> {
    if x in xs then xs else xs + [x]
  }

  lemma Regroup<T>(a: seq<T>, b: seq<T>, c: seq<T>)
    ensures a + (b + c) == (a + b) + c
  {
  }

  lemma NothingAdded<T>(a: seq<T>)
    ensures a + [] == a
  {
  }

  lemma InConcat<T>(a: seq<T>, b: seq<T>, x: T)
    ensures x in a + b <==> x in a || x in b
  {
  }

  lemma CutLonger<T>(a: seq<T>, b: seq<T>, p: nat)
    requires p < |a|
    ensures (a + b)[p] == a[p] && (a + b)[..p] == a[..p] && (a + b)[p..] == a[p..] + b
  {
  }

  lemma InSecond<T>(a: seq<T>, b: seq<T>, p: nat)
    requires |a| <= p < |a + b|
    ensures p - |a| < |b| && (a + b)[p] == b[p - |a|]
  {
  }

  lemma CutAtFront<T>(front: seq<T>, rest: seq<T>)
    requires rest != []
    ensures |front| < |front + rest| && (front + rest)[|front|] == rest[0]
    ensures (front + rest)[..|front|] == front && (front + rest)[|front|..] == rest
  {
  }

  // ---------- lists of lists ----------

  /** The parts, one after the other. */
  function Flat<T>(parts: seq<seq<T>>): seq<T> {
    if parts == [] then [] else Flat(parts[..|parts| - 1]) + parts[|parts| - 1]
  }

  lemma FlatOne<T>(part: seq<T>)
    ensures Flat([part]) == part
  {
    assert [part][..0] == [];
  }

  lemma FlatNext<T>(parts: seq<seq<T>>, part: seq<T>)
    ensures Flat(parts + [part]) == Flat(parts) + part
  {
    assert (parts + [part])[..|parts|] == parts;
  }

  lemma {:induction false} FlatConcat<T>(a: seq<seq<T>>, b: seq<seq<T>>)
    ensures Flat(a + b) == Flat(a) + Flat(b)
  {
    if b == [] {
      NothingAdded(a);
      NothingAdded(Flat(a));
    } else {
      var front, last := b[..|b| - 1], b[|b| - 1];
      assert a + b == (a + front) + [last];
      FlatConcat(a, front);
      FlatNext(a + front, last);
      Regroup(Flat(a), Flat(front), last);
    }
  }

  /** The t-th part, between those before it and those after it. */
  lemma FlatAround<T>(parts: seq<seq<T>>, t: nat)
    requires t < |parts|
    ensures Flat(parts) == Flat(parts[..t]) + Flat(parts[t..])
    ensures Flat(parts[t..]) == parts[t] + Flat(parts[t + 1..])
  {
    assert parts == parts[..t] + parts[t..] && parts[t..] == [parts[t]] + parts[t + 1..];
    FlatConcat(parts[..t], parts[t..]);
    FlatConcat([parts[t]], parts[t + 1..]);
    FlatOne(parts[t]);
  }

  /** The p-th element belongs to part t. */
  predicate WithinPart<T(==)>(parts: seq<seq<T>>, t: nat, p: nat) {
    t < |parts| && p < |Flat(parts)| && |Flat(parts[..t])| <= p < |Flat(parts[..t])| + |parts[t]|
    && Flat(parts)[p] == parts[t][p - |Flat(parts[..t])|]
  }

  lemma {:induction false} PartOf<T>(parts: seq<seq<T>>, p: nat) returns (t: nat)
    requires p < |Flat(parts)|
    ensures WithinPart(parts, t, p)
  {
    var front, last := parts[..|parts| - 1], parts[|parts| - 1];
    if p < |Flat(front)| {
      t := PartOf(front, p);
      assert front[..t] == parts[..t];
    } else {
      t := |front|;
    }
  }
}
