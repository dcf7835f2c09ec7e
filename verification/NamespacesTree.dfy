/**
 The mutable namespace trie (logutils/namespaces_tree.go) refines a plain lookup: the level of the
 longest dotted prefix among the pairs accepted since the last empty rebuild.
 */
module NamespacesTree {
  import opened Wrappers
  import opened NamespaceFormat

  type Name = seq<string>

  datatype Pair = Pair(name: Name, level: Level)

  // ---------------------------------------------------------------------------
  // The plain lookup
  // ---------------------------------------------------------------------------

  /** The level of the last pair with exactly this name. */
  function LastLevel(pairs: seq<Pair>, name: Name): Option<Level> {
    if pairs == [] then None
    else
      var last := pairs[|pairs| - 1];
      if last.name == name then Some(last.level) else LastLevel(pairs[..|pairs| - 1], name)
  }

  /** The level of the longest prefix of at most k segments that some pair names. */
  function Lookup(pairs: seq<Pair>, name: Name, k: nat): Level
    requires k <= |name|
  {
    if k == 0 then INVALID
    else
      var l := LastLevel(pairs, name[..k]);
      if l.Some? then l.value else Lookup(pairs, name, k - 1)
  }

  function MinOf(pairs: seq<Pair>): Level {
    if pairs == [] then INVALID
    else
      var m, l := MinOf(pairs[..|pairs| - 1]), pairs[|pairs| - 1].level;
      if m == INVALID || l < m then l else m
  }

  /** The pair written as name:level. */
  function PairOf(item: string): Pair {
    var parts := Split(item, ':');
    var level := if |parts| == 2 then LvlFromString(parts[1]) else None;
    Pair(Split(parts[0], '.'), if level.Some? then level.value else INVALID)
  }

  function PairsOf(items: seq<string>): seq<Pair> {
    if items == [] then [] else PairsOf(items[..|items| - 1]) + [PairOf(items[|items| - 1])]
  }

  /** The pairs in force after a series of Rebuild calls. */
  function Accepted(calls: seq<string>): seq<Pair> {
    if calls == [] then []
    else
      var before, s := Accepted(calls[..|calls| - 1]), calls[|calls| - 1];
      if s == "" then [] else if AllItemsOk(s) then before + PairsOf(Split(s, ',')) else before
  }

  lemma AcceptedNext(calls: seq<string>, s: string)
    ensures Accepted(calls + [s]) ==
              if s == "" then []
              else if AllItemsOk(s) then Accepted(calls) + PairsOf(Split(s, ',')) else Accepted(calls)
  {
    assert (calls + [s])[..|calls|] == calls;
  }

  ghost predicate LevelsValid(pairs: seq<Pair>) {
    forall i | 0 <= i < |pairs| :: pairs[i].level < INVALID && pairs[i].name != []
  }

  lemma {:induction false} AcceptedValid(calls: seq<string>)
    ensures LevelsValid(Accepted(calls))
  {
    if calls != [] {
      AcceptedValid(calls[..|calls| - 1]);
      var s := calls[|calls| - 1];
      if s != "" && AllItemsOk(s) {
        PairsValid(Split(s, ','));
      }
    }
  }

  lemma {:induction false} PairsValid(items: seq<string>)
    requires forall i | 0 <= i < |items| :: ItemOk(items[i])
    ensures LevelsValid(PairsOf(items))
  {
    if items != [] {
      PairsValid(items[..|items| - 1]);
      LevelWordsParse(Split(items[|items| - 1], ':')[1]);
    }
  }

  /** The cached minimum is a lower bound of every level in force, and one of them. */
  lemma {:induction false} MinIsLowerBound(pairs: seq<Pair>, name: Name)
    requires LevelsValid(pairs) && LastLevel(pairs, name).Some?
    ensures MinOf(pairs) != INVALID && MinOf(pairs) <= LastLevel(pairs, name).value
  {
    var init, last := pairs[..|pairs| - 1], pairs[|pairs| - 1];
    if last.name != name { MinIsLowerBound(init, name); }
  }

  lemma {:induction false} MinIsAttained(pairs: seq<Pair>)
    requires LevelsValid(pairs)
    ensures MinOf(pairs) == INVALID <==> pairs == []
    ensures pairs != [] ==> exists i | 0 <= i < |pairs| :: pairs[i].level == MinOf(pairs)
  {
    if pairs != [] {
      var init, last := pairs[..|pairs| - 1], pairs[|pairs| - 1];
      MinIsAttained(init);
      if MinOf(pairs) == last.level {
        assert pairs[|pairs| - 1].level == MinOf(pairs);
      } else {
        var i :| 0 <= i < |init| && init[i].level == MinOf(init);
        assert pairs[i] == init[i];
      }
    }
  }

  lemma {:induction false} LookupIsExplicit(pairs: seq<Pair>, name: Name, k: nat)
    requires LevelsValid(pairs) && k <= |name| && Lookup(pairs, name, k) != INVALID
    ensures exists j | 0 < j <= k :: LastLevel(pairs, name[..j]) == Some(Lookup(pairs, name, k))
  {
    if LastLevel(pairs, name[..k]).None? {
      LookupIsExplicit(pairs, name, k - 1);
    }
  }

  /** The prefix of k segments has a level and no longer prefix of the name has one. */
  ghost predicate LongestPrefix(pairs: seq<Pair>, name: Name, k: nat) {
    0 < k <= |name| && LastLevel(pairs, name[..k]).Some? && forall j | k < j <= |name| :: LastLevel(pairs, name[..j]).None?
  }

  /** The level of the longest prefix that has one; the invalid level without such a prefix. */
  ghost predicate LongestDecides(pairs: seq<Pair>, name: Name, level: Level) {
    && (forall k: nat :: LongestPrefix(pairs, name, k) ==> LastLevel(pairs, name[..k]) == Some(level))
    && ((forall k: nat :: !LongestPrefix(pairs, name, k)) ==> level == INVALID)
  }

  lemma LookupIsLongest(pairs: seq<Pair>, name: Name)
    ensures LongestDecides(pairs, name, Lookup(pairs, name, |name|))
  {
    forall k: nat | LongestPrefix(pairs, name, k) ensures LastLevel(pairs, name[..k]) == Some(Lookup(pairs, name, |name|)) {
      LookupSkips(pairs, name, k, |name|);
    }
    if forall k: nat :: !LongestPrefix(pairs, name, k) {
      NoPrefix(pairs, name, |name|);
      LookupSkips(pairs, name, 0, |name|);
    }
  }

  lemma {:induction false} LookupSkips(pairs: seq<Pair>, name: Name, k: nat, n: nat)
    requires k <= n <= |name| && forall j | k < j <= n :: LastLevel(pairs, name[..j]).None?
    ensures Lookup(pairs, name, n) == Lookup(pairs, name, k)
  {
    if k < n { LookupSkips(pairs, name, k, n - 1); }
  }

  /** If no prefix is the longest with a level, none of at most n segments has one beyond those already excluded. */
  lemma {:induction false} NoPrefix(pairs: seq<Pair>, name: Name, n: nat)
    requires n <= |name| && (forall k: nat :: !LongestPrefix(pairs, name, k))
    requires forall j | n < j <= |name| :: LastLevel(pairs, name[..j]).None?
    ensures forall j | 0 < j <= |name| :: LastLevel(pairs, name[..j]).None?
  {
    if n > 0 {
      assert !LongestPrefix(pairs, name, n);
      NoPrefix(pairs, name, n - 1);
    }
  }

  // ---------------------------------------------------------------------------
  // The trie
  // ---------------------------------------------------------------------------

  /** A position in the trie: the top, or one segment below another position. */
  datatype Path = Top | Under(parent: Path, segment: string)

  function PathOf(name: Name): Path {
    if name == [] then Top else Under(PathOf(name[..|name| - 1]), name[|name| - 1])
  }

  lemma PathOfPrefix(name: Name, k: nat)
    requires k < |name|
    ensures PathOf(name[..k + 1]) == Under(PathOf(name[..k]), name[k])
  {
    assert name[..k + 1][..k] == name[..k];
  }

  lemma {:induction false} PathInjective(a: Name, b: Name)
    requires PathOf(a) == PathOf(b)
    ensures a == b
  {
    if a != [] && b != [] {
      PathInjective(a[..|a| - 1], b[..|b| - 1]);
      assert a == a[..|a| - 1] + [a[|a| - 1]] && b == b[..|b| - 1] + [b[|b| - 1]];
    }
  }

  /** The levels in force, position by position. */
  function LevelsOf(pairs: seq<Pair>): map<Path, Level> {
    if pairs == [] then map[]
    else LevelsOf(pairs[..|pairs| - 1])[PathOf(pairs[|pairs| - 1].name) := pairs[|pairs| - 1].level]
  }

  lemma {:induction false} LevelsAreLast(pairs: seq<Pair>, name: Name)
    ensures LastLevel(pairs, name) == if PathOf(name) in LevelsOf(pairs) then Some(LevelsOf(pairs)[PathOf(name)]) else None
  {
    if pairs != [] {
      LevelsAreLast(pairs[..|pairs| - 1], name);
      if PathOf(pairs[|pairs| - 1].name) == PathOf(name) { PathInjective(pairs[|pairs| - 1].name, name); }
    }
  }

  /** What the trie and the cached minimum say together. */
  datatype View = View(levels: map<Path, Level>, minLevel: Level)

  function ViewOf(pairs: seq<Pair>): View {
    View(LevelsOf(pairs), MinOf(pairs))
  }

  /** One pair of Rebuild. */
  function AddOne(v: View, pair: Pair): View {
    View(v.levels[PathOf(pair.name) := pair.level],
         if v.minLevel == INVALID || pair.level < v.minLevel then pair.level else v.minLevel)
  }

  /** The loop of Rebuild. */
  function AddAll(v: View, items: seq<string>): View {
    if items == [] then v else AddOne(AddAll(v, items[..|items| - 1]), PairOf(items[|items| - 1]))
  }

  lemma AddAllStep(v: View, items: seq<string>, i: nat)
    requires i < |items|
    ensures AddAll(v, items[..i + 1]) == AddOne(AddAll(v, items[..i]), PairOf(items[i]))
  {
    assert items[..i + 1][..i] == items[..i];
  }

  lemma AddOneAppends(pairs: seq<Pair>, pair: Pair)
    ensures AddOne(ViewOf(pairs), pair) == ViewOf(pairs + [pair])
  {
    assert (pairs + [pair])[..|pairs|] == pairs;
  }

  lemma {:induction false} AddAllAppends(pairs: seq<Pair>, items: seq<string>)
    ensures AddAll(ViewOf(pairs), items) == ViewOf(pairs + PairsOf(items))
  {
    if items == [] {
      assert pairs + [] == pairs;
    } else {
      var init, last := items[..|items| - 1], PairOf(items[|items| - 1]);
      AddAllAppends(pairs, init);
      AddOneAppends(pairs + PairsOf(init), last);
      assert pairs + PairsOf(items) == pairs + PairsOf(init) + [last];
    }
  }

  /** One call of Rebuild. */
  function Rebuilt(v: View, namespaces: string): View {
    if namespaces == "" then View(map[], INVALID)
    else if AllItemsOk(namespaces) then AddAll(v, Split(namespaces, ','))
    else v
  }

  lemma RebuiltView(calls: seq<string>, namespaces: string)
    ensures Rebuilt(ViewOf(Accepted(calls)), namespaces) == ViewOf(Accepted(calls + [namespaces]))
  {
    AcceptedNext(calls, namespaces);
    AddAllAppends(Accepted(calls), Split(namespaces, ','));
  }

  class Node {
    var level: Level
    var children: map<string, Node>
    var explicit: bool
    /** Where in the trie the node was created. */
    ghost const at: Path

    constructor (ghost at: Path)
      ensures children == map[] && !explicit && this.at == at
    {
      level, children, explicit := 0, map[], false;
      this.at := at;
    }
  }

  /** namespacesRegex.MatchString */
  method MatchesFormat(s: string) returns (ok: bool)
    ensures ok <==> AllItemsOk(s)
  {
    FormatMeaning(s);
    ok := FormatOk(s);
  }

  /** The two later checks of Rebuild; neither fails on a pair in the format. */
  method ParseItem(item: string) returns (pair: Option<Pair>)
    ensures ItemOk(item) ==> pair == Some(PairOf(item))
    ensures pair.Some? ==> pair.value.name != []
  {
    var parts := Split(item, ':');
    if |parts| != 2 { return None; }
    if ItemOk(item) { LevelWordsParse(parts[1]); }
    var lvl := LvlFromString(parts[1]);
    if lvl.None? { return None; }
    return Some(Pair(Split(parts[0], '.'), lvl.value));
  }

  class Tree {
    /** Holds the top-level map of namespaces; it is never explicit itself. */
    var root: Node
    var minLevel: Level

    /** The node reached along each path of segments. */
    ghost var nodes: map<Path, Node>
    /** Every node ever linked into the trie. */
    ghost var repr: set<Node>
    /** The explicit levels, path by path. */
    ghost var levels: map<Path, Level>
    /** The strings Rebuild was called with. */
    ghost var calls: seq<string>

    /** The child maps and the path map describe the same trie. */
    ghost predicate Linked()
      reads this, repr
    {
      && Top in nodes && nodes[Top] == root
      && (forall p | p in nodes :: nodes[p] in repr && nodes[p].at == p)
      && (forall p, n {:trigger Under(p, n)} :: Under(p, n) in nodes <==> p in nodes && n in nodes[p].children)
      && (forall p, n {:trigger Under(p, n)} :: Under(p, n) in nodes ==> nodes[Under(p, n)] == nodes[p].children[n])
    }

    /** The explicit nodes carry the recorded levels; the top is never explicit. */
    ghost predicate Marked()
      reads this, repr
    {
      && Top !in levels
      && (forall p | p in nodes :: nodes[p] in repr && (nodes[p].explicit <==> p in levels))
      && (forall p | p in levels :: p in nodes && nodes[p].level == levels[p])
    }

    ghost predicate Shape()
      reads this, repr
    {
      Linked() && Marked()
    }

    ghost function State(): View
      reads this
    {
      View(levels, minLevel)
    }

    ghost predicate Valid()
      reads this, repr
    {
      Shape() && State() == ViewOf(Accepted(calls))
    }

    /** newNamespacesTree */
    constructor ()
      ensures Valid() && calls == [] && fresh(repr)
    {
      root := new Node(Top);
      minLevel := INVALID;
      calls, levels := [], map[];
      new;
      nodes, repr := map[Top := root], {root};
    }

    /** Linking a new node at q keeps the two descriptions of the trie in step. */
    twostate lemma ChildKeepsLinks(q: Path)
      requires old(Linked()) && q.Under? && old(q.parent in nodes && q.segment !in nodes[q.parent].children)
      requires q !in old(nodes) && q in nodes && nodes[q] !in old(repr)
      requires nodes == old(nodes)[q := nodes[q]] && repr == old(repr) + {nodes[q]} && root == old(root)
      requires nodes[q].at == q && nodes[q].children == map[]
      requires nodes[q.parent].children == old(nodes[q.parent].children)[q.segment := nodes[q]]
      requires forall x | x in old(repr) && x != nodes[q.parent] :: x.children == old(x.children)
      ensures Linked()
    {
    }

    /** A new node without a level leaves the recorded levels right. */
    twostate lemma ChildKeepsMarks(q: Path)
      requires old(Marked()) && q.Under? && q !in old(nodes) && q in nodes && nodes[q] !in old(repr)
      requires nodes == old(nodes)[q := nodes[q]] && repr == old(repr) + {nodes[q]} && levels == old(levels)
      requires !nodes[q].explicit
      requires forall x | x in old(repr) :: x.level == old(x.level) && x.explicit == old(x.explicit)
      ensures Marked()
    {
    }

    /** Links a new node below its parent. */
    method LinkChild(ghost q: Path, parent: Node, node: Node, name: string)
      requires Linked() && q.Under? && q.segment == name && q.parent in nodes && nodes[q.parent] == parent
      requires name !in parent.children && node !in repr && node.at == q && node.children == map[]
      modifies this`nodes, this`repr, parent`children
      ensures Linked() && q !in old(nodes) && nodes == old(nodes)[q := node] && repr == old(repr) + {node}
    {
      assert q == Under(q.parent, name);
      parent.children := parent.children[name := node];
      nodes := nodes[q := node];
      repr := repr + {node};
      ChildKeepsLinks(q);
    }

    /** Descends to the child called name, creating it when it is missing. */
    method StepInto(ghost p: Path, parent: Node, name: string) returns (node: Node)
      requires Shape() && p in nodes && nodes[p] == parent
      modifies this`nodes, this`repr, parent`children
      ensures Shape() && Under(p, name) in nodes && nodes[Under(p, name)] == node
      ensures fresh(repr - old(repr))
    {
      if name in parent.children {
        assert Under(p, name) in nodes;
        node := parent.children[name];
      } else {
        node := new Node(Under(p, name));
        LinkChild(Under(p, name), parent, node, name);
        ChildKeepsMarks(Under(p, name));
      }
    }

    /** The loop of addNamespace: walks down, creating what is missing. */
    method Walk(name: Name) returns (current: Node)
      requires Shape()
      modifies this`nodes, this`repr, repr`children
      ensures Shape() && fresh(repr - old(repr))
      ensures PathOf(name) in nodes && nodes[PathOf(name)] == current
    {
      current := root;
      ghost var p := Top;
      for i := 0 to |name|
        invariant p == PathOf(name[..i])
        invariant Shape() && p in nodes && nodes[p] == current
        invariant fresh(repr - old(repr))
      {
        current := StepInto(p, current, name[i]);
        PathOfPrefix(name, i);
        p := Under(p, name[i]);
      }
      assert name[..|name|] == name;
    }

    /** What marking the node at p leaves as it was. */
    twostate lemma MarkKeepsShape(p: Path)
      requires old(Shape()) && p in old(nodes) && p != Top
      requires nodes == old(nodes) && repr == old(repr) && root == old(root)
      requires nodes[p].explicit && nodes[p].children == old(nodes[p].children)
      requires levels == old(levels)[p := nodes[p].level]
      requires forall x | x in old(repr) && x != nodes[p] ::
                 x.level == old(x.level) && x.explicit == old(x.explicit) && x.children == old(x.children)
      ensures Shape()
    {
    }

    method Mark(ghost p: Path, node: Node, level: Level)
      requires Shape() && p in nodes && nodes[p] == node && p != Top
      modifies this`levels, node`level, node`explicit
      ensures Shape() && levels == old(levels)[p := level]
    {
      node.level := level;
      node.explicit := true;
      levels := levels[p := level];
      MarkKeepsShape(p);
    }

    /** addNamespace: walk, then mark the last node. */
    method AddNamespace(name: Name, level: Level)
      requires Shape() && name != []
      modifies this`nodes, this`repr, this`levels, repr
      ensures Shape() && fresh(repr - old(repr))
      ensures levels == old(levels)[PathOf(name) := level]
    {
      var current := Walk(name);
      Mark(PathOf(name), current, level);
    }

    /** LevelFor: the last explicit node met on the way down. */
    method LevelFor(namespace: string) returns (level: Level)
      requires Valid()
      ensures level == Lookup(Accepted(calls), Split(namespace, '.'), |Split(namespace, '.')|)
      ensures LongestDecides(Accepted(calls), Split(namespace, '.'), level)
    {
      level := Descend(Split(namespace, '.'));
      LookupIsLongest(Accepted(calls), Split(namespace, '.'));
    }

    /** The walk of LevelFor over the segments. */
    method Descend(name: Name) returns (level: Level)
      requires Valid()
      ensures level == Lookup(Accepted(calls), name, |name|)
    {
      ghost var pairs := Accepted(calls);
      AcceptedValid(calls);
      var current, lastFound: Node? := root, null;
      var i := 0;
      while i < |name|
        invariant i <= |name| && PathOf(name[..i]) in nodes && nodes[PathOf(name[..i])] == current
        invariant lastFound == null ==> Lookup(pairs, name, i) == INVALID
        invariant lastFound != null ==> lastFound.level == Lookup(pairs, name, i)
      {
        PathOfPrefix(name, i);
        if name[i] in current.children {
          var node := current.children[name[i]];
          LevelsAreLast(pairs, name[..i + 1]);
          if node.explicit {
            lastFound := node;
          }
          current := node;
        } else {
          NoDeeper(pairs, name, i, |name|);
          break;
        }
        i := i + 1;
      }
      return if lastFound != null then lastFound.level else INVALID;
    }

    /** Once the walk falls off the trie, no longer prefix has a level. */
    lemma {:induction false} NoDeeper(pairs: seq<Pair>, name: Name, i: nat, k: nat)
      requires Shape() && levels == LevelsOf(pairs) && i < k <= |name| && PathOf(name[..i + 1]) !in nodes
      ensures PathOf(name[..k]) !in nodes && Lookup(pairs, name, k) == Lookup(pairs, name, i)
    {
      if k > i + 1 {
        NoDeeper(pairs, name, i, k - 1);
        PathOfPrefix(name, k - 1);
      }
      LevelsAreLast(pairs, name[..k]);
    }

    /** One pair of Rebuild: add it and lower the minimum. */
    method AddPair(pair: Pair)
      requires Shape() && pair.name != []
      modifies this`nodes, this`repr, this`levels, this`minLevel, repr
      ensures Shape() && State() == AddOne(old(State()), pair) && fresh(repr - old(repr))
    {
      AddNamespace(pair.name, pair.level);
      if minLevel == INVALID || pair.level < minLevel {
        minLevel := pair.level;
      }
    }

    /** One round of the loop of Rebuild. */
    method AddItem(item: string) returns (ok: bool)
      requires Shape() && ItemOk(item)
      modifies this`nodes, this`repr, this`levels, this`minLevel, repr
      ensures ok && Shape() && State() == AddOne(old(State()), PairOf(item)) && fresh(repr - old(repr))
    {
      var pair := ParseItem(item);
      if pair.None? { return false; }
      AddPair(pair.value);
      return true;
    }

    /** The loop of Rebuild over the pairs. */
    method AddItems(items: seq<string>) returns (ok: bool)
      requires Shape() && forall i | 0 <= i < |items| :: ItemOk(items[i])
      modifies this`nodes, this`repr, this`levels, this`minLevel, repr
      ensures ok && Shape() && State() == AddAll(old(State()), items) && fresh(repr - old(repr))
    {
      ghost var start := State();
      assert items[..0] == [];
      for i := 0 to |items|
        invariant Shape() && State() == AddAll(start, items[..i]) && fresh(repr - old(repr))
      {
        AddAllStep(start, items, i);
        var added := AddItem(items[i]);
        if !added { return false; }
      }
      assert items[..|items|] == items;
      return true;
    }

    method Clear()
      modifies this`root, this`nodes, this`repr, this`levels, this`minLevel
      ensures Shape() && State() == View(map[], INVALID) && fresh(repr)
    {
      root := new Node(Top);
      nodes, levels, repr := map[Top := root], map[], {root};
      minLevel := INVALID;
    }

    /** The body of Rebuild. */
    method RebuildTree(namespaces: string) returns (ok: bool)
      requires Shape()
      modifies this`root, this`nodes, this`repr, this`levels, this`minLevel, repr
      ensures Shape() && State() == Rebuilt(old(State()), namespaces) && fresh(repr - old(repr))
      ensures ok <==> namespaces == "" || AllItemsOk(namespaces)
      ensures !ok ==> root == old(root)
    {
      if namespaces == "" {
        Clear();
        return true;
      }
      var matches := MatchesFormat(namespaces);
      if !matches {
        return false;
      }
      ok := AddItems(Split(namespaces, ','));
    }

    /** Rebuild: all or nothing; a string in the format never meets a later error. */
    method Rebuild(namespaces: string) returns (ok: bool)
      requires Valid()
      modifies this, repr
      ensures Valid() && calls == old(calls) + [namespaces] && fresh(repr - old(repr))
      ensures ok <==> namespaces == "" || AllItemsOk(namespaces)
      ensures !ok ==> State() == old(State()) && root == old(root)
    {
      RebuiltView(calls, namespaces);
      calls := calls + [namespaces];
      ok := RebuildTree(namespaces);
    }

    method MinLevel() returns (level: Level)
      requires Valid()
      ensures level == MinOf(Accepted(calls))
    {
      level := minLevel;
    }
  }

  // ---------------------------------------------------------------------------
  // Filtering
  // ---------------------------------------------------------------------------

  /** zapcore.Level.Enabled */
  predicate Enabled(threshold: Level, level: Level) {
    level >= threshold
  }

  /** The level enabler of namespace_filtering_core.go:16-22. */
  predicate LevelEnabled(pairs: seq<Pair>, coreLevel: Level, level: Level) {
    var minLevel := MinOf(pairs);
    if minLevel != INVALID then Enabled(minLevel, level) else Enabled(coreLevel, level)
  }

  /** The entry filter of namespace_filtering_core.go:24-30. */
  predicate EntryAccepted(pairs: seq<Pair>, coreLevel: Level, name: Name, level: Level) {
    var namespaceLevel := Lookup(pairs, name, |name|);
    if namespaceLevel != INVALID then Enabled(namespaceLevel, level) else Enabled(coreLevel, level)
  }

  /** An entry the filter accepts through an explicit level is also enabled. */
  lemma ExplicitEntriesEnabled(calls: seq<string>, coreLevel: Level, name: Name, level: Level)
    requires Lookup(Accepted(calls), name, |name|) != INVALID
    requires EntryAccepted(Accepted(calls), coreLevel, name, level)
    ensures LevelEnabled(Accepted(calls), coreLevel, level)
  {
    var pairs := Accepted(calls);
    AcceptedValid(calls);
    LookupIsExplicit(pairs, name, |name|);
    var j :| 0 < j <= |name| && LastLevel(pairs, name[..j]) == Some(Lookup(pairs, name, |name|));
    MinIsLowerBound(pairs, name[..j]);
  }

  /**
   Without an explicit level the two can disagree: the enabler refuses an accepted entry exactly when
   some pair is in force, none covers the logger, and the entry lies below every configured level.
   */
  lemma FilterAndEnablerDisagree(calls: seq<string>, coreLevel: Level, name: Name, level: Level)
    requires EntryAccepted(Accepted(calls), coreLevel, name, level)
    ensures !LevelEnabled(Accepted(calls), coreLevel, level) <==>
              && Accepted(calls) != [] && Lookup(Accepted(calls), name, |name|) == INVALID
              && level < MinOf(Accepted(calls))
  {
    AcceptedValid(calls);
    MinIsAttained(Accepted(calls));
    if Lookup(Accepted(calls), name, |name|) != INVALID {
      ExplicitEntriesEnabled(calls, coreLevel, name, level);
    }
  }

  // ---------------------------------------------------------------------------
  // The stale minimum
  // ---------------------------------------------------------------------------

  /** No later pair gives the name of pair i another level. */
  predicate InForce(pairs: seq<Pair>, i: nat)
    requires i < |pairs|
  {
    forall j | i < j < |pairs| :: pairs[j].name == pairs[i].name ==> pairs[j].level == pairs[i].level
  }

  lemma {:induction false} InForceIsLast(pairs: seq<Pair>, i: nat)
    requires i < |pairs| && InForce(pairs, i)
    ensures LastLevel(pairs, pairs[i].name) == Some(pairs[i].level)
  {
    var last := |pairs| - 1;
    if i < last && pairs[last].name != pairs[i].name {
      assert InForce(pairs[..last], i);
      InForceIsLast(pairs[..last], i);
    }
  }

  lemma {:induction false} LastIsInForce(pairs: seq<Pair>, name: Name) returns (i: nat)
    requires LastLevel(pairs, name).Some?
    ensures i < |pairs| && InForce(pairs, i) && pairs[i].name == name && LastLevel(pairs, name) == Some(pairs[i].level)
  {
    i := |pairs| - 1;
    if pairs[i].name != name { i := LastIsInForce(pairs[..|pairs| - 1], name); }
  }

  /** The cached minimum is the level of some name exactly when a pair with that level is still in force. */
  lemma MinimumIsCurrentExactly(pairs: seq<Pair>)
    ensures (exists name :: LastLevel(pairs, name) == Some(MinOf(pairs))) <==>
              exists i: nat :: i < |pairs| && pairs[i].level == MinOf(pairs) && InForce(pairs, i)
  {
    if name :| LastLevel(pairs, name) == Some(MinOf(pairs)) {
      var i := LastIsInForce(pairs, name);
    }
    if i: nat :| i < |pairs| && pairs[i].level == MinOf(pairs) && InForce(pairs, i) {
      InForceIsLast(pairs, i);
    }
  }

  lemma ParsedPair(name: string, word: string, level: Level)
    requires NameOk(name) && ':' !in name && ',' !in name && '.' !in name && word in LEVEL_WORDS && ':' !in word
    requires LvlFromString(word) == Some(level)
    ensures ItemOk(name + ":" + word) && PairOf(name + ":" + word) == Pair([name], level)
  {
    PairSplit(name, word, ':');
    SplitNone(name, '.');
  }

  lemma {:induction false} CaseIs(word: string, cases: seq<(string, Level)>, k: nat)
    requires k < |cases| && cases[k].0 == word && forall i | 0 <= i < k :: cases[i].0 != word
    ensures FindCase(word, cases) == Some(cases[k].1)
  {
    if k > 0 { CaseIs(word, cases[1..], k - 1); }
  }

  /** The levels of the four words of the format, as the logging library numbers them. */
  lemma LevelCodes()
    ensures LvlFromString("debug") == Some(-1) && LvlFromString("info") == Some(0)
    ensures LvlFromString("warn") == Some(1) && LvlFromString("error") == Some(2)
  {
    assert ToLower("debug") == "debug" && ToLower("info") == "info" && ToLower("warn") == "warn" && ToLower("error") == "error";
    CaseIs("debug", LEVEL_CASES, 2);
    CaseIs("info", LEVEL_CASES, 4);
    CaseIs("warn", LEVEL_CASES, 5);
    CaseIs("error", LEVEL_CASES, 6);
  }

  lemma PairsOfTwo(a: string, b: string)
    ensures PairsOf([a, b]) == [PairOf(a), PairOf(b)]
  {
    var items := [a, b];
    assert items[..1] == [a] && items[..1][..0] == [];
    assert PairsOf(items) == PairsOf(items[..1]) + [PairOf(b)];
  }

  /** A rebuild with two pairs. */
  lemma AcceptedTwo(a: string, b: string, s: string)
    requires ItemOk(a) && ItemOk(b) && s == a + [','] + b
    ensures Accepted([s]) == [PairOf(a), PairOf(b)]
  {
    PrependItem(a, b);
    SingleItem(b);
    ItemHasNoComma(a);
    ItemHasNoComma(b);
    PairSplit(a, b, ',');
    PairsOfTwo(a, b);
    AcceptedOne(s);
  }

  lemma AcceptedOne(s: string)
    requires s != "" && AllItemsOk(s)
    ensures Accepted([s]) == PairsOf(Split(s, ','))
  {
    AcceptedNext([], s);
    assert [] + [s] == [s];
  }

  /** A string that gives a name one level and then another. */
  function Overriding(name: string): string { (name + ":" + "debug") + [','] + (name + ":" + "error") }

  lemma DebugThenError(name: string)
    requires NameOk(name) && ':' !in name && ',' !in name && '.' !in name
    ensures Accepted([Overriding(name)]) == [Pair([name], DEBUG), Pair([name], ERROR)]
  {
    LevelCodes();
    assert "debug" in LEVEL_WORDS && "error" in LEVEL_WORDS by {
      assert LEVEL_WORDS[0] == "debug" && LEVEL_WORDS[3] == "error";
    }
    ParsedPair(name, "debug", DEBUG);
    ParsedPair(name, "error", ERROR);
    AcceptedTwo(name + ":" + "debug", name + ":" + "error", Overriding(name));
  }

  lemma OverriddenPairs(name: Name)
    ensures var pairs := [Pair(name, DEBUG), Pair(name, ERROR)];
            MinOf(pairs) == DEBUG && forall n :: LastLevel(pairs, n) == if n == name then Some(ERROR) else None
  {
    var pairs := [Pair(name, DEBUG), Pair(name, ERROR)];
    assert pairs[..1] == [Pair(name, DEBUG)];
    assert pairs[..1][..0] == [];
    assert MinOf(pairs[..1]) == DEBUG;
    forall n ensures LastLevel(pairs, n) == if n == name then Some(ERROR) else None {
      assert LastLevel(pairs[..1], n) == if n == name then Some(DEBUG) else None;
    }
  }

  /** The cached minimum can be stale: after the rebuild "name:debug,name:error" of any name, debug is in force nowhere. */
  lemma MinimumMayBeStale(name: string)
    requires NameOk(name) && ':' !in name && ',' !in name && '.' !in name
    ensures var pairs := Accepted([Overriding(name)]);
            MinOf(pairs) == DEBUG && forall n :: LastLevel(pairs, n) == if n == [name] then Some(ERROR) else None
  {
    DebugThenError(name);
    OverriddenPairs([name]);
  }

  /** Such a disagreement: a core that logs traces, one configured name, and a trace of any other logger. */
  lemma FilterAcceptsRefused(name: string, other: string)
    requires NameOk(name) && ':' !in name && ',' !in name && '.' !in name && other != name
    ensures var pairs := Accepted([Overriding(name)]);
            EntryAccepted(pairs, TRACE, [other], TRACE) && !LevelEnabled(pairs, TRACE, TRACE)
  {
    MinimumMayBeStale(name);
    assert [other][..1] == [other] && [other] != [name];
  }
}
