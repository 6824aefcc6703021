/**
 The join options of an entity: every relation path from it along which no entity
 repeats, except possibly the one the last relation leads to.
 */
module JoinPaths {
  import opened Wrappers
  import opened Texts

  type Entity = nat

  /** targetEntity is absent when the relation's target cannot be resolved. */
  datatype Relation = Relation(propertyName: Text, targetEntity: Option<Entity>)

  type Graph = map<Entity, seq<Relation>>

  const DOT: CodeUnit := 46

  function RelationsOf(graph: Graph, entity: Entity): seq<Relation> {
    if entity in graph then graph[entity] else []
  }

  /** A property under a prefix. */
  function PathText(prefix: Text, propertyName: Text): Text {
    if prefix != [] then prefix + [DOT] + propertyName else propertyName
  }

  /** The text of a relation path under a prefix. */
  function PathsText(prefix: Text, path: seq<Relation>): Text
    decreases |path|
  {
    if |path| == 0 then prefix else PathsText(PathText(prefix, path[0].propertyName), path[1..])
  }

  // ---------------------------------------------------------------- which paths

  /** The path follows relations of the graph, starting at an entity. */
  predicate Follows(graph: Graph, start: Entity, path: seq<Relation>) {
    forall i | 0 <= i < |path| :: StepsFrom(graph, start, path, i)
  }

  predicate StepsFrom(graph: Graph, start: Entity, path: seq<Relation>, i: nat)
    requires i < |path|
  {
    (i > 0 ==> path[i - 1].targetEntity.Some?) && path[i] in RelationsOf(graph, SourceOf(start, path, i))
  }

  /** The entity that relation i of the path leaves. */
  function SourceOf(start: Entity, path: seq<Relation>, i: nat): Entity
    requires i < |path|
  {
    if i == 0 then start else if path[i - 1].targetEntity.Some? then path[i - 1].targetEntity.value else start
  }

  /** A step takes a relation of the graph from the root, or from where the relation before it leads. */
  lemma StepsTakeRelations(graph: Graph, root: Entity, path: seq<Relation>, i: nat)
    requires i < |path|
    ensures StepsFrom(graph, root, path, i) <==>
      if i == 0 then root in graph && path[0] in graph[root]
      else
        && path[i - 1].targetEntity.Some? && path[i - 1].targetEntity.value in graph
        && path[i] in graph[path[i - 1].targetEntity.value]
  {
  }

  /** No entity is left twice; where the last relation leads does not matter. */
  predicate NoRepeats(start: Entity, path: seq<Relation>) {
    forall i, j | 0 <= i < j < |path| :: SourceOf(start, path, i) != SourceOf(start, path, j)
  }

  predicate IsJoinPath(graph: Graph, root: Entity, path: seq<Relation>) {
    |path| > 0 && Follows(graph, root, path) && NoRepeats(root, path)
  }

  /** The same, one relation at a time, with the entities already on the way. */
  predicate Walkable(graph: Graph, current: Entity, seen: set<Entity>, path: seq<Relation>)
    decreases |path|
  {
    && |path| > 0 && path[0] in RelationsOf(graph, current)
    && (|path| > 1 ==>
          && path[0].targetEntity.Some? && path[0].targetEntity.value !in seen
          && Walkable(graph, path[0].targetEntity.value, seen + {path[0].targetEntity.value}, path[1..]))
  }

  /** The sources after the first avoid what was seen before. */
  predicate Avoids(start: Entity, path: seq<Relation>, seen: set<Entity>) {
    forall i | 1 <= i < |path| :: SourceOf(start, path, i) !in seen
  }

  /** What holds of the tail of a path, seen from the whole path. */
  lemma TailFollows(graph: Graph, start: Entity, path: seq<Relation>, i: nat)
    requires |path| > 1 && path[0].targetEntity.Some? && i + 1 < |path|
    ensures StepsFrom(graph, path[0].targetEntity.value, path[1..], i) <==> StepsFrom(graph, start, path, i + 1)
    ensures StepsFrom(graph, start, path, i + 1) ==>
      SourceOf(path[0].targetEntity.value, path[1..], i) == SourceOf(start, path, i + 1)
  {
  }

  lemma {:induction false} WalkableMeansSimple(graph: Graph, current: Entity, seen: set<Entity>, path: seq<Relation>)
    requires current in seen && Walkable(graph, current, seen, path)
    ensures Follows(graph, current, path) && NoRepeats(current, path) && Avoids(current, path, seen)
    decreases |path|
  {
    if |path| > 1 {
      var next, tail := path[0].targetEntity.value, path[1..];
      WalkableMeansSimple(graph, next, seen + {next}, tail);
      assert StepsFrom(graph, current, path, 0);
      forall i | 1 <= i < |path|
        ensures StepsFrom(graph, current, path, i) && SourceOf(next, tail, i - 1) == SourceOf(current, path, i)
      {
        assert StepsFrom(graph, next, tail, i - 1);
        TailFollows(graph, current, path, i - 1);
      }
      TailAvoids(current, path, seen);
    }
  }

  lemma TailAvoids(current: Entity, path: seq<Relation>, seen: set<Entity>)
    requires |path| > 1 && path[0].targetEntity.Some? && path[0].targetEntity.value !in seen && current in seen
    requires
      var next := path[0].targetEntity.value;
      && NoRepeats(next, path[1..]) && Avoids(next, path[1..], seen + {next})
      && forall i | 1 <= i < |path| :: SourceOf(next, path[1..], i - 1) == SourceOf(current, path, i)
    ensures NoRepeats(current, path) && Avoids(current, path, seen)
  {
    var next, tail := path[0].targetEntity.value, path[1..];
    forall i | 1 <= i < |path| ensures SourceOf(current, path, i) !in seen {
      assert SourceOf(next, tail, i - 1) == SourceOf(current, path, i);
      assert i > 1 ==> SourceOf(next, tail, i - 1) !in seen + {next};
    }
    forall i, j | 0 <= i < j < |path| ensures SourceOf(current, path, i) != SourceOf(current, path, j) {
      if i > 0 {
        assert SourceOf(next, tail, i - 1) != SourceOf(next, tail, j - 1);
        assert SourceOf(next, tail, i - 1) == SourceOf(current, path, i) && SourceOf(next, tail, j - 1) == SourceOf(current, path, j);
      }
    }
  }

  lemma {:induction false} SimpleMeansWalkable(graph: Graph, current: Entity, seen: set<Entity>, path: seq<Relation>)
    requires |path| > 0 && Follows(graph, current, path) && NoRepeats(current, path) && Avoids(current, path, seen)
    ensures Walkable(graph, current, seen, path)
    decreases |path|
  {
    assert StepsFrom(graph, current, path, 0);
    if |path| > 1 {
      assert StepsFrom(graph, current, path, 1);
      var next, tail := path[0].targetEntity.value, path[1..];
      assert SourceOf(current, path, 1) == next;
      forall i | 0 <= i < |tail|
        ensures StepsFrom(graph, next, tail, i) && SourceOf(next, tail, i) == SourceOf(current, path, i + 1)
      {
        assert StepsFrom(graph, current, path, i + 1);
        TailFollows(graph, current, path, i);
      }
      forall i | 1 <= i < |tail| ensures SourceOf(next, tail, i) !in seen + {next} {
        assert SourceOf(current, path, i + 1) !in seen && SourceOf(current, path, 1) != SourceOf(current, path, i + 1);
      }
      SimpleMeansWalkable(graph, next, seen + {next}, tail);
    }
  }

  /** The recursive rule walks exactly the paths without repeats. */
  lemma WalksAreJoinPaths(graph: Graph, root: Entity, path: seq<Relation>)
    ensures Walkable(graph, root, {root}, path) <==> IsJoinPath(graph, root, path)
  {
    if Walkable(graph, root, {root}, path) {
      WalkableMeansSimple(graph, root, {root}, path);
    }
    if IsJoinPath(graph, root, path) {
      forall i | 1 <= i < |path| ensures SourceOf(root, path, i) !in {root} {
        assert SourceOf(root, path, 0) != SourceOf(root, path, i);
      }
      SimpleMeansWalkable(graph, root, {root}, path);
    }
  }

  // ---------------------------------------------------------------- the walk

  /** All entities that relations lead to. */
  function Targets(relations: seq<Relation>): (r: set<Entity>)
    ensures forall i | 0 <= i < |relations| :: relations[i].targetEntity.Some? ==> relations[i].targetEntity.value in r
  {
    if |relations| == 0 then {}
    else
      Targets(relations[1..]) + if relations[0].targetEntity.Some? then {relations[0].targetEntity.value} else {}
  }

  ghost function Universe(graph: Graph): set<Entity> {
    set e, t | e in graph && t in Targets(graph[e]) :: t
  }

  /** The text is that of a walk from here whose first relation is among the first n. */
  ghost predicate ListedBy(graph: Graph, current: Entity, prefix: Text, seen: set<Entity>, n: nat, text: Text) {
    exists path :: Lists(graph, current, prefix, seen, n, text, path)
  }

  ghost predicate Lists(graph: Graph, current: Entity, prefix: Text, seen: set<Entity>, n: nat, text: Text, path: seq<Relation>) {
    && n <= |RelationsOf(graph, current)| && Walkable(graph, current, seen, path)
    && path[0] in RelationsOf(graph, current)[..n] && text == PathsText(prefix, path)
  }

  ghost predicate Listed(graph: Graph, current: Entity, prefix: Text, seen: set<Entity>, text: Text) {
    ListedBy(graph, current, prefix, seen, |RelationsOf(graph, current)|, text)
  }

  /** The walk from the target of relation n lists the text. */
  ghost predicate ListedBeyond(graph: Graph, relation: Relation, prefix: Text, seen: set<Entity>, text: Text) {
    var path := PathText(prefix, relation.propertyName);
    && relation.targetEntity.Some? && relation.targetEntity.value !in seen
    && Listed(graph, relation.targetEntity.value, path, seen + {relation.targetEntity.value}, text)
  }

  lemma ListedSplits(graph: Graph, current: Entity, prefix: Text, seen: set<Entity>, n: nat, text: Text)
    requires n < |RelationsOf(graph, current)| && ListedBy(graph, current, prefix, seen, n + 1, text)
    ensures
      var relation := RelationsOf(graph, current)[n];
      || ListedBy(graph, current, prefix, seen, n, text)
      || text == PathText(prefix, relation.propertyName)
      || ListedBeyond(graph, relation, prefix, seen, text)
  {
    var relations := RelationsOf(graph, current);
    var p: seq<Relation> :| Lists(graph, current, prefix, seen, n + 1, text, p);
    assert relations[..n + 1] == relations[..n] + [relations[n]];
    if p[0] in relations[..n] {
      assert Lists(graph, current, prefix, seen, n, text, p);
    } else if |p| > 1 {
      var next := p[0].targetEntity.value;
      var all := RelationsOf(graph, next);
      assert all[..|all|] == all && Walkable(graph, next, seen + {next}, p[1..]);
      assert p[1..][0] in all;
      assert Lists(graph, next, PathText(prefix, p[0].propertyName), seen + {next}, |all|, text, p[1..]);
    }
  }

  lemma ListedEarlier(graph: Graph, current: Entity, prefix: Text, seen: set<Entity>, n: nat, text: Text)
    requires n < |RelationsOf(graph, current)| && ListedBy(graph, current, prefix, seen, n, text)
    ensures ListedBy(graph, current, prefix, seen, n + 1, text)
  {
    var relations := RelationsOf(graph, current);
    var p: seq<Relation> :| Lists(graph, current, prefix, seen, n, text, p);
    assert relations[..n + 1] == relations[..n] + [relations[n]];
    assert Lists(graph, current, prefix, seen, n + 1, text, p);
  }

  lemma ListsItself(graph: Graph, current: Entity, prefix: Text, seen: set<Entity>, n: nat)
    requires n < |RelationsOf(graph, current)|
    ensures ListedBy(graph, current, prefix, seen, n + 1, PathText(prefix, RelationsOf(graph, current)[n].propertyName))
  {
    var relations := RelationsOf(graph, current);
    var p := [relations[n]];
    assert relations[..n + 1] == relations[..n] + p;
    assert PathsText(prefix, p) == PathsText(PathText(prefix, relations[n].propertyName), p[1..]);
    assert Lists(graph, current, prefix, seen, n + 1, PathText(prefix, relations[n].propertyName), p);
  }

  lemma ListedLater(graph: Graph, current: Entity, prefix: Text, seen: set<Entity>, n: nat, text: Text)
    requires n < |RelationsOf(graph, current)| && ListedBeyond(graph, RelationsOf(graph, current)[n], prefix, seen, text)
    ensures ListedBy(graph, current, prefix, seen, n + 1, text)
  {
    var relations := RelationsOf(graph, current);
    var relation := relations[n];
    var next, path := relation.targetEntity.value, PathText(prefix, relation.propertyName);
    var p: seq<Relation> :| Lists(graph, next, path, seen + {next}, |RelationsOf(graph, next)|, text, p);
    var q := [relation] + p;
    assert q[0] == relation && q[1..] == p;
    assert relation in relations[..n + 1] by { assert relations[..n + 1][n] == relation; }
    assert Walkable(graph, current, seen, q);
    assert PathsText(prefix, q) == PathsText(path, p);
    assert Lists(graph, current, prefix, seen, n + 1, text, q);
  }

  /** One more relation lists its own path and what the walk from its target lists. */
  lemma OneMoreRelation(graph: Graph, current: Entity, prefix: Text, seen: set<Entity>, n: nat, text: Text)
    requires n < |RelationsOf(graph, current)|
    ensures
      var relation := RelationsOf(graph, current)[n];
      ListedBy(graph, current, prefix, seen, n + 1, text) <==>
      || ListedBy(graph, current, prefix, seen, n, text)
      || text == PathText(prefix, relation.propertyName)
      || ListedBeyond(graph, relation, prefix, seen, text)
  {
    var relation := RelationsOf(graph, current)[n];
    if ListedBy(graph, current, prefix, seen, n + 1, text) { ListedSplits(graph, current, prefix, seen, n, text); }
    if ListedBy(graph, current, prefix, seen, n, text) { ListedEarlier(graph, current, prefix, seen, n, text); }
    if text == PathText(prefix, relation.propertyName) { ListsItself(graph, current, prefix, seen, n); }
    if ListedBeyond(graph, relation, prefix, seen, text) { ListedLater(graph, current, prefix, seen, n, text); }
  }

  class JoinOptionsBuilder {
    const graph: Graph
    var joinOptions: set<Text>
    var visitedPaths: set<Text>

    constructor (graph: Graph)
      ensures this.graph == graph && joinOptions == {} && visitedPaths == {}
    {
      this.graph, joinOptions, visitedPaths := graph, {}, {};
    }

    /** walk: it ends on cyclic graphs because seen grows within the entities of the graph. */
    method Walk(current: Entity, prefix: Text, seen: set<Entity>)
      requires visitedPaths == joinOptions
      modifies this
      ensures visitedPaths == joinOptions
      ensures Adds(graph, current, prefix, seen, |RelationsOf(graph, current)|, old(joinOptions), joinOptions)
      decreases |Universe(graph) - seen|, 1
    {
      var relations := RelationsOf(graph, current);
      AddsNothing(graph, current, prefix, seen, joinOptions);
      for n := 0 to |relations|
        invariant visitedPaths == joinOptions
        invariant Adds(graph, current, prefix, seen, n, old(joinOptions), joinOptions)
      {
        ghost var before := joinOptions;
        WalkRelation(current, prefix, seen, n);
        AddsOneMore(graph, current, prefix, seen, n, old(joinOptions), before, joinOptions);
      }
    }

    /** The loop body of walk for one relation. */
    method WalkRelation(current: Entity, prefix: Text, seen: set<Entity>, n: nat)
      requires visitedPaths == joinOptions && n < |RelationsOf(graph, current)|
      modifies this
      ensures visitedPaths == joinOptions
      ensures AddsBelow(graph, RelationsOf(graph, current)[n], prefix, seen, old(joinOptions), joinOptions)
      decreases |Universe(graph) - seen|, 0
    {
      var relation := RelationsOf(graph, current)[n];
      var path := PathText(prefix, relation.propertyName);
      if path !in visitedPaths {
        joinOptions := joinOptions + {path};
        visitedPaths := visitedPaths + {path};
      }
      if relation.targetEntity.None? || relation.targetEntity.value in seen {
        return;
      }
      var nextSeen := seen + {relation.targetEntity.value};
      SeenGrows(graph, current, n, seen);
      Walk(relation.targetEntity.value, path, nextSeen);
    }
  }

  /** The options now are those before and what the first n relations list. */
  ghost predicate Adds(
    graph: Graph, current: Entity, prefix: Text, seen: set<Entity>, n: nat, before: set<Text>, now: set<Text>)
  {
    forall text :: text in now <==> text in before || ListedBy(graph, current, prefix, seen, n, text)
  }

  ghost predicate AddsBelow(graph: Graph, relation: Relation, prefix: Text, seen: set<Entity>, before: set<Text>, now: set<Text>) {
    forall text :: text in now <==>
      || text in before || text == PathText(prefix, relation.propertyName)
      || ListedBeyond(graph, relation, prefix, seen, text)
  }

  lemma AddsNothing(graph: Graph, current: Entity, prefix: Text, seen: set<Entity>, before: set<Text>)
    ensures Adds(graph, current, prefix, seen, 0, before, before)
  {
  }

  lemma AddsOneMore(
    graph: Graph, current: Entity, prefix: Text, seen: set<Entity>, n: nat,
    start: set<Text>, before: set<Text>, now: set<Text>)
    requires n < |RelationsOf(graph, current)| && Adds(graph, current, prefix, seen, n, start, before)
    requires AddsBelow(graph, RelationsOf(graph, current)[n], prefix, seen, before, now)
    ensures Adds(graph, current, prefix, seen, n + 1, start, now)
  {
    forall text ensures text in now <==> text in start || ListedBy(graph, current, prefix, seen, n + 1, text) {
      OneMoreRelation(graph, current, prefix, seen, n, text);
    }
  }

  lemma SeenGrows(graph: Graph, current: Entity, n: nat, seen: set<Entity>)
    requires n < |RelationsOf(graph, current)|
    requires var next := RelationsOf(graph, current)[n].targetEntity; next.Some? && next.value !in seen
    ensures |Universe(graph) - (seen + {RelationsOf(graph, current)[n].targetEntity.value})| < |Universe(graph) - seen|
  {
    var next := RelationsOf(graph, current)[n].targetEntity.value;
    assert next in Targets(graph[current]);
    assert next in Universe(graph) - seen;
    assert Universe(graph) - (seen + {next}) == (Universe(graph) - seen) - {next};
  }

  /** buildJoinOptionsForEntity: on any relation graph, exactly the paths without repeats. */
  method BuildJoinOptionsForEntity(graph: Graph, root: Entity) returns (joinOptions: set<Text>)
    ensures forall text :: text in joinOptions <==> exists path :: IsJoinPath(graph, root, path) && text == PathsText([], path)
    ensures forall path: seq<Relation> | IsJoinPath(graph, root, path) && path[0].propertyName != [] :: DottedNames(path) in joinOptions
  {
    var builder := new JoinOptionsBuilder(graph);
    builder.Walk(root, [], {root});
    joinOptions := builder.joinOptions;
    forall text
      ensures text in joinOptions <==> exists path :: IsJoinPath(graph, root, path) && text == PathsText([], path)
    {
      ListedAreJoinPaths(graph, root, text);
    }
    forall path: seq<Relation> | IsJoinPath(graph, root, path) && path[0].propertyName != [] ensures DottedNames(path) in joinOptions {
      PathTextIsDotted(path);
    }
  }

  /** The property names of a path, with a dot between any two. */
  function DottedNames(path: seq<Relation>): Text
    requires |path| > 0
  {
    var n := |path| - 1;
    (if n == 0 then [] else DottedNames(path[..n]) + [46]) + path[n].propertyName
  }

  lemma {:induction false} PathTextAppends(prefix: Text, path: seq<Relation>, last: Relation)
    ensures PathsText(prefix, path + [last]) == PathText(PathsText(prefix, path), last.propertyName)
    decreases |path|
  {
    if |path| > 0 {
      assert (path + [last])[1..] == path[1..] + [last];
      PathTextAppends(PathText(prefix, path[0].propertyName), path[1..], last);
    } else {
      assert path + [last] == [last] && [last][1..] == [];
    }
  }

  /** The text of a path is its property names joined by dots. */
  lemma {:induction false} PathTextIsDotted(path: seq<Relation>)
    requires |path| > 0 && path[0].propertyName != []
    ensures PathsText([], path) == DottedNames(path) != []
    decreases |path|
  {
    var n := |path| - 1;
    PathTextAppends([], path[..n], path[n]);
    assert path == path[..n] + [path[n]];
    if n > 0 { PathTextIsDotted(path[..n]); }
  }

  lemma ListedAreJoinPaths(graph: Graph, root: Entity, text: Text)
    ensures Listed(graph, root, [], {root}, text) <==> exists path :: IsJoinPath(graph, root, path) && text == PathsText([], path)
  {
    var all := RelationsOf(graph, root);
    assert all[..|all|] == all;
    if Listed(graph, root, [], {root}, text) {
      var path :| Lists(graph, root, [], {root}, |all|, text, path);
      WalksAreJoinPaths(graph, root, path);
    }
    if path :| IsJoinPath(graph, root, path) && text == PathsText([], path) {
      WalksAreJoinPaths(graph, root, path);
      assert Lists(graph, root, [], {root}, |all|, text, path);
    }
  }
}
