/** The bounded network of a project's versions and their dependants. */
module BipartiteNetwork {
  import opened Graphs

  datatype Dependant = Dependant(targetProject: string, targetVersion: string, project: string, version: string)

  datatype Link = Link(from: string, to: string)

  function TargetId(project: string, version: string): string {
    "target:" + project + ":" + version
  }

  function DependantId(project: string, version: string): string {
    "dependant:" + project + ":" + version
  }

  function LinkOf(d: Dependant): Link {
    Link(DependantId(d.project, d.version), TargetId(d.targetProject, d.targetVersion))
  }

  /** Target and dependant ids never meet; two targets share an id only if their joined names agree. */
  lemma IdsDiffer(p: string, v: string, q: string, w: string)
    ensures TargetId(p, v) != DependantId(q, w)
    ensures TargetId(p, v) == TargetId(q, w) <==> p + ":" + v == q + ":" + w
  {
    assert TargetId(p, v)[0] == 't' && DependantId(q, w)[0] == 'd';
    assert TargetId(p, v) == "target:" + (p + ":" + v) && TargetId(q, w) == "target:" + (q + ":" + w);
    assert TargetId(p, v)[7..] == p + ":" + v && TargetId(q, w)[7..] == q + ":" + w;
  }

  /** The network drawn so far, with the builder's counters. */
  class Builder {
    const maxNodes: nat
    const maxEdges: nat
    var added: set<string>
    var links: seq<Link>
    var dropped: nat
    var truncated: bool

    ghost predicate Valid()
      reads this
    {
      && |added| <= maxNodes && |links| <= maxEdges
      && (forall l :: l in links ==> l.from in added && l.to in added)
      && (truncated <==> dropped > 0)
    }

    constructor (maxNodes: nat, maxEdges: nat)
      ensures Valid() && this.maxNodes == maxNodes && this.maxEdges == maxEdges
      ensures added == {} && links == [] && dropped == 0
    {
      this.maxNodes, this.maxEdges := maxNodes, maxEdges;
      added, links, dropped, truncated := {}, [], 0, false;
    }

    method AddNode(id: string) returns (ok: bool)
      modifies this`added
      ensures ok <==> id in old(added) || |old(added)| < maxNodes
      ensures added == if ok then old(added) + {id} else old(added)
    {
      if id in added {
        return true;
      }
      if |added| >= maxNodes {
        return false;
      }
      added := added + {id};
      return true;
    }

    /** The network refuses an edge whose ends it does not have. */
    method AddEdge(from: string, to: string)
      requires from in added && to in added
      modifies this`links
      ensures links == old(links) + [Link(from, to)]
    {
      links := links + [Link(from, to)];
    }

    method Drop()
      modifies this`dropped, this`truncated
      ensures dropped == old(dropped) + 1 && truncated
    {
      dropped, truncated := dropped + 1, true;
    }

    /** Seeds are drawn while there is room, from the front. */
    method AddSeeds(seeds: seq<(string, string)>)
      requires Valid() && added == {} && links == [] && dropped == 0
      modifies this`added, this`dropped, this`truncated
      ensures Valid() && dropped <= |seeds|
      ensures added <= set s | s in seeds :: TargetId(s.0, s.1)
      ensures dropped == 0 ==> forall s :: s in seeds ==> TargetId(s.0, s.1) in added
      ensures dropped > 0 ==> |added| == maxNodes
    {
      for i := 0 to |seeds|
        invariant Valid() && dropped <= i
        invariant added <= set s | s in seeds :: TargetId(s.0, s.1)
        invariant dropped == 0 ==> forall j :: 0 <= j < i ==> TargetId(seeds[j].0, seeds[j].1) in added
        invariant dropped > 0 ==> |added| == maxNodes
      {
        assert seeds[i] in seeds;
        ghost var before, id := added, TargetId(seeds[i].0, seeds[i].1);
        assert id in before ==> before + {id} == before;
        var ok := AddNode(TargetId(seeds[i].0, seeds[i].1));
        if !ok {
          Drop();
        }
      }
    }

    /** One edge: drawn with both its ends, or dropped without a trace. The check beforehand makes both
        AddNode calls succeed. */
    method AddDependant(d: Dependant) returns (drawn: bool)
      requires Valid()
      modifies this
      ensures Valid()
      ensures drawn <==>
        |old(links)| < maxEdges
        && |old(added) + {TargetId(d.targetProject, d.targetVersion), DependantId(d.project, d.version)}| <= maxNodes
      ensures drawn ==>
        && links == old(links) + [LinkOf(d)]
        && added == old(added) + {TargetId(d.targetProject, d.targetVersion), DependantId(d.project, d.version)}
        && dropped == old(dropped)
      ensures !drawn ==> links == old(links) && added == old(added) && dropped == old(dropped) + 1
    {
      var target, dependant := TargetId(d.targetProject, d.targetVersion), DependantId(d.project, d.version);
      IdsDiffer(d.targetProject, d.targetVersion, d.project, d.version);
      var prospective := (if target !in added then 1 else 0) + (if dependant !in added then 1 else 0);
      BothAdded(added, target, dependant);
      if |links| >= maxEdges || |added| + prospective > maxNodes {
        Drop();
        return false;
      }
      var first := AddNode(target);
      var second := AddNode(dependant);
      assert first && second;
      AddEdge(dependant, target);
      return true;
    }
  }

  lemma BothAdded(ids: set<string>, a: string, b: string)
    requires a != b
    ensures |ids + {a, b}| == |ids| + (if a !in ids then 1 else 0) + (if b !in ids then 1 else 0)
  {
    assert ids + {a, b} == (ids + {a}) + {b};
    assert a in ids ==> ids + {a} == ids;
    assert b in ids + {a} ==> ids + {a} + {b} == ids + {a};
  }

  /** Every link is drawn between nodes of the network, from a dependant to a target, and every input edge is
      either drawn or counted as dropped. */
  method BuildBoundedNetwork(seeds: seq<(string, string)>, dependants: seq<Dependant>, maxNodes: nat, maxEdges: nat)
    returns (net: Builder, ghost seedsDropped: nat)
    ensures fresh(net) && net.Valid() && net.maxNodes == maxNodes && net.maxEdges == maxEdges
    ensures |net.links| + net.dropped == |dependants| + seedsDropped
    ensures seedsDropped <= net.dropped && seedsDropped <= |seeds|
    ensures seedsDropped == 0 ==> forall s :: s in seeds ==> TargetId(s.0, s.1) in net.added
    ensures seedsDropped > 0 ==> |net.added| == maxNodes
    ensures forall l :: l in net.links ==> exists d :: d in dependants && l == LinkOf(d)
    ensures net.dropped == 0 ==>
      |net.links| == |dependants| && forall s :: s in seeds ==> TargetId(s.0, s.1) in net.added
  {
    net := new Builder(maxNodes, maxEdges);
    net.AddSeeds(seeds);
    seedsDropped := net.dropped;
    ghost var drawn := net.added;
    for i := 0 to |dependants|
      invariant net.Valid() && net.maxNodes == maxNodes && net.maxEdges == maxEdges
      invariant |net.links| + net.dropped == i + seedsDropped && seedsDropped <= net.dropped
      invariant forall l :: l in net.links ==> exists d :: d in dependants && l == LinkOf(d)
      invariant drawn <= net.added && (seedsDropped > 0 ==> |net.added| == maxNodes)
    {
      assert dependants[i] in dependants;
      ghost var before := net.added;
      var _ := net.AddDependant(dependants[i]);
      SubsetSize(before, net.added);
    }
  }
}
