/** Saving a graph of nodes by index and loading it again (src/lang/reflection.cc). */
module Reflection {
  import Sets

  const ARRAY_KEY := "Array"
  const MAP_KEY := "Map"

  /** A field as VisitAttrs shows it: text, or a reference to a node. */
  datatype Value = Prim(text: string) | Ref(node: Node?)

  /** A node. Arrays use data, maps use entries, all other types use fields. */
  class Node {
    const typeKey: string
    var data: seq<Node?>
    var entries: map<Node?, Node?>
    var fields: seq<Value>

    constructor (typeKey: string)
      ensures this.typeKey == typeKey && data == [] && entries == map[] && fields == []
    {
      this.typeKey, data, entries, fields := typeKey, [], map[], [];
    }
  }

  datatype Field = Field(key: string, isRef: bool)

  /** The fields of each node type, in visiting order. */
  type Schema = string -> seq<Field>

  predicate DistinctKeys(fs: seq<Field>) {
    forall i, j | 0 <= i < j < |fs| :: fs[i].key != fs[j].key
  }

  predicate Plain(typeKey: string) {
    typeKey != ARRAY_KEY && typeKey != MAP_KEY
  }

  /** The node has a type, and a field of the right kind for each one in the schema. */
  ghost predicate ValidNode(n: Node, schema: Schema)
    reads n
  {
    && n.typeKey != "" && DistinctKeys(schema(n.typeKey))
    && (Plain(n.typeKey) ==> |n.fields| == |schema(n.typeKey)| && forall j | 0 <= j < |n.fields| :: n.fields[j].Ref? == schema(n.typeKey)[j].isRef)
  }

  /** The nodes, and null, that a node refers to. */
  function Children(n: Node): set<Node?>
    reads n
  {
    if n.typeKey == ARRAY_KEY then set c <- n.data
    else if n.typeKey == MAP_KEY then n.entries.Keys + n.entries.Values
    else set f <- n.fields | f.Ref? :: f.node
  }

  /** A set of valid nodes that holds all their children. */
  ghost predicate Closed(all: set<Node>, schema: Schema)
    reads all
  {
    forall n <- all :: ValidNode(n, schema) && forall c <- Children(n) | c != null :: c in all
  }

  /** Every node of the list besides null and root is a child of an earlier one. */
  ghost predicate Linked(nodes: seq<Node?>, root: Node?)
    reads nodes
  {
    forall i | 0 <= i < |nodes| && nodes[i] != null && nodes[i] != root :: exists j | 0 <= j < i :: ChildOf(nodes, i, j)
  }

  predicate ChildOf(nodes: seq<Node?>, i: nat, j: nat)
    requires i < |nodes| && j < |nodes|
    reads nodes
  {
    nodes[j] != null && nodes[i] in Children(nodes[j])
  }

  lemma {:induction false} LinkedNull(root: Node?)
    ensures Linked([null], root)
  {
  }

  lemma {:induction false} EntryChildren(n: Node, k: Node?)
    requires n.typeKey == MAP_KEY && k in n.entries
    ensures k in Children(n) && n.entries[k] in Children(n)
  {
    assert n.entries[k] in n.entries.Values;
  }

  lemma {:induction false} LinkedMore(nodes: seq<Node?>, root: Node?, n: Node, parent: Node?, k: nat)
    requires Linked(nodes, root)
    requires n == root || (k < |nodes| && nodes[k] == parent != null && n in Children(parent))
    ensures Linked(nodes + [n], root)
  {
    var more := nodes + [n];
    forall i | 0 <= i < |more| && more[i] != null && more[i] != root ensures exists j | 0 <= j < i :: ChildOf(more, i, j) {
      if i < |nodes| {
        var j :| 0 <= j < i && ChildOf(nodes, i, j);
        assert ChildOf(more, i, j);
      } else {
        assert ChildOf(more, i, k);
      }
    }
  }

  class NodeIndexer {
    var nodeIndex: map<Node?, nat>
    var nodeList: seq<Node?>

    constructor ()
      ensures Valid() && nodeList == [null]
    {
      nodeIndex, nodeList := map[null := 0], [null];
    }

    /** The list holds null first and every indexed node once, at its index. */
    ghost predicate Valid()
      reads this
    {
      && |nodeList| == |nodeIndex| > 0 && nodeList[0] == null
      && (forall i | 0 <= i < |nodeList| :: nodeList[i] in nodeIndex && nodeIndex[nodeList[i]] == i)
      && (forall n <- nodeIndex :: nodeIndex[n] < |nodeList| && nodeList[nodeIndex[n]] == n)
    }

    /** All children of n are indexed. */
    ghost predicate Finished(n: Node)
      reads this, n
    {
      Children(n) <= nodeIndex.Keys
    }

    /** All indexed nodes except for open ones are finished, and belong to all. */
    ghost predicate Complete(all: set<Node>, open: set<Node>)
      reads this, all
    {
      forall n: Node? | n in nodeIndex && n != null :: n in all && (n !in open ==> Finished(n))
    }

    /** Indexes what can be reached from node and is not indexed yet. */
    method MakeIndex(node: Node?, ghost parent: Node?, ghost all: set<Node>, ghost open: set<Node>, schema: Schema, ghost root: Node?)
      requires Valid() && Closed(all, schema) && Complete(all, open) && Linked(nodeList, root) && (node != null ==> node in all)
      requires node == null || node == root || (parent != null && parent in nodeIndex && node in Children(parent))
      modifies this
      ensures Valid() && Complete(all, open) && Linked(nodeList, root) && node in nodeIndex && old(nodeIndex.Keys) <= nodeIndex.Keys
      decreases |all - nodeIndex.Keys|, 0
    {
      hide Linked;
      if node == null {
        return;
      }
      if node in nodeIndex {
        return;
      }
      ghost var keys := nodeIndex.Keys;
      AddNode(node, parent, all, open, root);
      Sets.SubsetSize(all - nodeIndex.Keys, all - keys);
      assert node in all - keys;
      IndexChildren(node, all, open + {node}, schema, root);
      assert Complete(all, open);
    }

    /** Gives the node the next index. */
    method AddNode(node: Node, ghost parent: Node?, ghost all: set<Node>, ghost open: set<Node>, ghost root: Node?)
      requires Valid() && Complete(all, open) && Linked(nodeList, root) && node in all && node !in nodeIndex
      requires node == root || (parent != null && parent in nodeIndex && node in Children(parent))
      modifies this
      ensures Valid() && Complete(all, open + {node}) && Linked(nodeList, root) && nodeIndex.Keys == old(nodeIndex.Keys) + {node}
    {
      hide Linked;
      LinkedMore(nodeList, root, node, parent, if node == root then 0 else nodeIndex[parent]);
      nodeIndex := nodeIndex[node := |nodeList|];
      nodeList := nodeList + [node];
    }

    method IndexChildren(node: Node, ghost all: set<Node>, ghost open: set<Node>, schema: Schema, ghost root: Node?)
      requires Valid() && Closed(all, schema) && Complete(all, open) && Linked(nodeList, root) && node in all && node in nodeIndex
      modifies this
      ensures Valid() && Complete(all, open) && Linked(nodeList, root) && old(nodeIndex.Keys) <= nodeIndex.Keys && Finished(node)
      decreases |all - nodeIndex.Keys|, 3
    {
      hide Linked;
      if node.typeKey == ARRAY_KEY {
        IndexAll(node.data, node, all, open, schema, root);
      } else if node.typeKey == MAP_KEY {
        IndexEntries(node, all, open, schema, root);
      } else {
        RefsOf(node.fields);
        assert forall c <- Refs(node.fields) :: c in Children(node);
        IndexAll(Refs(node.fields), node, all, open, schema, root);
        assert forall c <- Children(node) :: c in Refs(node.fields);
      }
    }

    method IndexEntries(node: Node, ghost all: set<Node>, ghost open: set<Node>, schema: Schema, ghost root: Node?)
      requires Valid() && Closed(all, schema) && Complete(all, open) && Linked(nodeList, root) && node in all && node in nodeIndex && node.typeKey == MAP_KEY
      modifies this
      ensures Valid() && Complete(all, open) && Linked(nodeList, root) && old(nodeIndex.Keys) <= nodeIndex.Keys && Finished(node)
      decreases |all - nodeIndex.Keys|, 2
    {
      hide Linked, Valid, Complete, Closed;
      var ks := KeyList(node.entries);
      for i := 0 to |ks|
        invariant Valid() && Complete(all, open) && Linked(nodeList, root) && old(nodeIndex.Keys) <= nodeIndex.Keys
        invariant forall j | 0 <= j < i :: ks[j] in nodeIndex && node.entries[ks[j]] in nodeIndex
      {
        Sets.SubsetSize(all - nodeIndex.Keys, all - old(nodeIndex.Keys));
        assert ks[i] in ks;
        EntryChildren(node, ks[i]);
        var pair := [ks[i], node.entries[ks[i]]];
        IndexAll(pair, node, all, open, schema, root);
        assert pair[0] in nodeIndex && pair[1] in nodeIndex;
      }
      assert forall k <- node.entries :: k in nodeIndex && node.entries[k] in nodeIndex;
    }

    /** Indexes some children of a node. */
    method IndexAll(children: seq<Node?>, ghost node: Node, ghost all: set<Node>, ghost open: set<Node>, schema: Schema, ghost root: Node?)
      requires Valid() && Closed(all, schema) && Complete(all, open) && Linked(nodeList, root) && node in all && node in nodeIndex
      requires forall c <- children :: c in Children(node)
      modifies this
      ensures Valid() && Complete(all, open) && Linked(nodeList, root) && old(nodeIndex.Keys) <= nodeIndex.Keys && node in nodeIndex
      ensures forall c <- children :: c in nodeIndex
      decreases |all - nodeIndex.Keys|, 1
    {
      hide Linked, Complete;
      for i := 0 to |children|
        invariant Valid() && Complete(all, open) && Linked(nodeList, root) && old(nodeIndex.Keys) <= nodeIndex.Keys
        invariant forall c <- children[..i] :: c in nodeIndex
      {
        Sets.SubsetSize(all - nodeIndex.Keys, all - old(nodeIndex.Keys));
        MakeIndex(children[i], node, all, open, schema, root);
        assert children[..i + 1] == children[..i] + [children[i]];
      }
      assert children[..|children|] == children;
    }
  }

  /** The nodes that the fields refer to. */
  function Refs(fields: seq<Value>): seq<Node?> {
    if fields == [] then [] else (if fields[0].Ref? then [fields[0].node] else []) + Refs(fields[1..])
  }

  lemma {:induction false} RefsOf(fields: seq<Value>)
    ensures (set c <- Refs(fields)) == set f <- fields | f.Ref? :: f.node
  {
    if fields != [] {
      RefsOf(fields[1..]);
      var rest := set c <- Refs(fields[1..]);
      assert fields == [fields[0]] + fields[1..];
      assert (set c <- Refs(fields)) == rest + if fields[0].Ref? then {fields[0].node} else {};
      assert (set f <- fields | f.Ref? :: f.node) == (set f <- fields[1..] | f.Ref? :: f.node) + if fields[0].Ref? then {fields[0].node} else {};
    }
  }

  /** The keys of a map in some order. */
  method KeyList(entries: map<Node?, Node?>) returns (ks: seq<Node?>)
    ensures forall k: Node? :: k in ks <==> k in entries
  {
    ks := [];
    var rest := entries.Keys;
    while rest != {}
      invariant rest <= entries.Keys && forall k: Node? :: k in ks <==> k in entries && k !in rest
      decreases |rest|
    {
      var k :| k in rest;
      ks := ks + [k];
      rest := rest - {k};
    }
  }

  // ----- saving -----

  /** An attribute in the saved graph: text, or the index of a node. */
  datatype Attr = Text(text: string) | Index(index: nat)

  datatype JsonNode = JsonNode(typeKey: string, attrs: map<string, Attr>, data: seq<nat>)

  datatype JsonGraph = JsonGraph(root: nat, nodes: seq<JsonNode>)

  const NO_NODE := JsonNode("", map[], [])

  function SavedValue(v: Value, nodeIndex: map<Node?, nat>): Attr {
    if v.Prim? then Text(v.text) else Index(if v.node in nodeIndex then nodeIndex[v.node] else 0)
  }

  /** j holds the contents of n, with the children as indices. */
  ghost predicate Saved(n: Node?, j: JsonNode, nodeIndex: map<Node?, nat>, schema: Schema)
    reads n
  {
    if n == null then j == NO_NODE
    else
      && j.typeKey == n.typeKey && Children(n) <= nodeIndex.Keys
      && (n.typeKey == ARRAY_KEY ==> SavedArray(n.data, j.data, nodeIndex))
      && (n.typeKey == MAP_KEY ==> SavedEntries(n.entries, j.data, nodeIndex))
      && (Plain(n.typeKey) ==> SavedFields(n.fields, j.attrs, nodeIndex, schema(n.typeKey)))
  }

  predicate SavedArray(data: seq<Node?>, saved: seq<nat>, nodeIndex: map<Node?, nat>) {
    |saved| == |data| && forall i | 0 <= i < |data| :: data[i] in nodeIndex && saved[i] == nodeIndex[data[i]]
  }

  predicate SavedEntry(entries: map<Node?, Node?>, k: Node?, saved: seq<nat>, i: nat, nodeIndex: map<Node?, nat>)
    requires k in entries && 2 * i + 1 < |saved|
  {
    k in nodeIndex && entries[k] in nodeIndex && saved[2 * i] == nodeIndex[k] && saved[2 * i + 1] == nodeIndex[entries[k]]
  }

  predicate OfEntry(entries: map<Node?, Node?>, saved: seq<nat>, i: nat, nodeIndex: map<Node?, nat>)
    requires 2 * i + 1 < |saved|
  {
    exists k <- entries :: SavedEntry(entries, k, saved, i, nodeIndex)
  }

  /** The pairs that are saved are those of the map. */
  predicate SavedEntries(entries: map<Node?, Node?>, saved: seq<nat>, nodeIndex: map<Node?, nat>) {
    && |saved| % 2 == 0
    && (forall i | 0 <= i < |saved| / 2 :: OfEntry(entries, saved, i, nodeIndex))
    && (forall k <- entries :: exists i :: 0 <= i < |saved| / 2 && SavedEntry(entries, k, saved, i, nodeIndex))
  }

  predicate SavedFields(fields: seq<Value>, attrs: map<string, Attr>, nodeIndex: map<Node?, nat>, fs: seq<Field>) {
    |fields| == |fs| && forall i | 0 <= i < |fs| :: fs[i].key in attrs && attrs[fs[i].key] == SavedValue(fields[i], nodeIndex)
  }

  method GetArray(data: seq<Node?>, nodeIndex: map<Node?, nat>) returns (saved: seq<nat>)
    requires forall c <- data :: c in nodeIndex
    ensures SavedArray(data, saved, nodeIndex)
  {
    saved := [];
    for i := 0 to |data|
      invariant SavedArray(data[..i], saved, nodeIndex)
    {
      assert data[i] in data;
      saved := saved + [nodeIndex[data[i]]];
    }
    assert data[..|data|] == data;
  }

  method GetEntries(entries: map<Node?, Node?>, nodeIndex: map<Node?, nat>) returns (saved: seq<nat>)
    requires entries.Keys + entries.Values <= nodeIndex.Keys
    ensures SavedEntries(entries, saved, nodeIndex)
  {
    var ks := KeyList(entries);
    saved := [];
    for i := 0 to |ks|
      invariant |saved| == 2 * i
      invariant forall j: nat | j < i :: ks[j] in entries && SavedEntry(entries, ks[j], saved, j, nodeIndex)
    {
      assert ks[i] in ks;
      assert entries[ks[i]] in entries.Values;
      saved := saved + [nodeIndex[ks[i]], nodeIndex[entries[ks[i]]]];
    }
    forall i | 0 <= i < |saved| / 2 ensures OfEntry(entries, saved, i, nodeIndex) {
      assert SavedEntry(entries, ks[i], saved, i, nodeIndex);
    }
    forall k <- entries ensures exists i :: 0 <= i < |saved| / 2 && SavedEntry(entries, k, saved, i, nodeIndex) {
      var i: nat :| i < |ks| && ks[i] == k;
      assert SavedEntry(entries, k, saved, i, nodeIndex);
    }
  }

  method GetFields(fields: seq<Value>, nodeIndex: map<Node?, nat>, fs: seq<Field>) returns (attrs: map<string, Attr>)
    requires |fields| == |fs| && DistinctKeys(fs) && forall f <- fields | f.Ref? :: f.node in nodeIndex
    ensures SavedFields(fields, attrs, nodeIndex, fs)
  {
    attrs := map[];
    for i := 0 to |fs|
      invariant forall j | 0 <= j < i :: fs[j].key in attrs && attrs[fs[j].key] == SavedValue(fields[j], nodeIndex)
    {
      attrs := attrs[fs[i].key := SavedValue(fields[i], nodeIndex)];
    }
  }

  method GetNode(n: Node?, nodeIndex: map<Node?, nat>, schema: Schema) returns (j: JsonNode)
    requires n != null ==> ValidNode(n, schema) && Children(n) <= nodeIndex.Keys
    ensures Saved(n, j, nodeIndex, schema)
  {
    if n == null {
      return NO_NODE;
    }
    if n.typeKey == ARRAY_KEY {
      var data := GetArray(n.data, nodeIndex);
      j := JsonNode(n.typeKey, map[], data);
    } else if n.typeKey == MAP_KEY {
      var data := GetEntries(n.entries, nodeIndex);
      j := JsonNode(n.typeKey, map[], data);
    } else {
      assert forall f <- n.fields | f.Ref? :: f.node in Children(n);
      var attrs := GetFields(n.fields, nodeIndex, schema(n.typeKey));
      j := JsonNode(n.typeKey, attrs, []);
    }
  }

  predicate Distinct(nodes: seq<Node?>) {
    forall i, j | 0 <= i < j < |nodes| :: nodes[i] != nodes[j]
  }

  /** The nodes of the list besides null: those that can be reached from root. They hold root and all their children, and
      nothing else: each is root or a child of an earlier one. */
  ghost predicate Reached(nodes: seq<Node?>, root: Node?, all: set<Node>)
    reads nodes
  {
    && |nodes| > 0 && nodes[0] == null && Distinct(nodes) && root in nodes
    && (forall n: Node? | n in nodes && n != null :: n in all && forall c <- Children(n) :: c in nodes)
    && Linked(nodes, root)
  }

  /** So they belong to every set that holds root and all its children. */
  lemma {:induction false} ReachedLeast(nodes: seq<Node?>, root: Node?, all: set<Node>, s: set<Node>, i: nat)
    requires Reached(nodes, root, all) && (root != null ==> root in s) && (forall n <- s, c <- Children(n) | c != null :: c in s)
    requires i < |nodes| && nodes[i] != null
    ensures nodes[i] in s
  {
    if nodes[i] != root {
      var j :| 0 <= j < i && ChildOf(nodes, i, j);
      ReachedLeast(nodes, root, all, s, j);
    }
  }

  ghost predicate IndexOf(nodes: seq<Node?>, nodeIndex: map<Node?, nat>) {
    forall n: Node? <- nodeIndex.Keys :: nodeIndex[n] < |nodes| && nodes[nodeIndex[n]] == n
  }

  method SaveNodes(list: seq<Node?>, index: map<Node?, nat>, schema: Schema) returns (saved: seq<JsonNode>)
    requires forall n: Node? | n in list && n != null :: ValidNode(n, schema) && Children(n) <= index.Keys
    ensures |saved| == |list| && forall k | 0 <= k < |list| :: Saved(list[k], saved[k], index, schema)
  {
    saved := [];
    for i := 0 to |list|
      invariant |saved| == i
      invariant forall k | 0 <= k < i :: Saved(list[k], saved[k], index, schema)
    {
      assert list[i] in list;
      var j := GetNode(list[i], index, schema);
      saved := saved + [j];
    }
  }

  /** The saved graph: one entry for each node that is reached, and the index of the root. */
  method CreateGraph(root: Node?, schema: Schema, ghost all: set<Node>) returns (g: JsonGraph, ghost nodes: seq<Node?>, ghost nodeIndex: map<Node?, nat>)
    requires Closed(all, schema) && (root != null ==> root in all)
    ensures Reached(nodes, root, all) && IndexOf(nodes, nodeIndex)
    ensures |g.nodes| == |nodes| && g.root < |nodes| && nodes[g.root] == root
    ensures forall i | 0 <= i < |nodes| :: Saved(nodes[i], g.nodes[i], nodeIndex, schema)
  {
    hide Linked;
    var list, index := IndexGraph(root, schema, all);
    nodes, nodeIndex := list, index;
    RootIndexed(list, index, root);
    var saved := SaveNodes(list, index, schema);
    g := JsonGraph(index[root], saved);
  }

  lemma {:induction false} RootIndexed(nodes: seq<Node?>, nodeIndex: map<Node?, nat>, root: Node?)
    requires IndexOf(nodes, nodeIndex) && root in nodeIndex
    ensures nodeIndex[root] < |nodes| && nodes[nodeIndex[root]] == root
  {
  }

  /** The nodes that are reached from root, and their indices. */
  method IndexGraph(root: Node?, schema: Schema, ghost all: set<Node>) returns (list: seq<Node?>, index: map<Node?, nat>)
    requires Closed(all, schema) && (root != null ==> root in all)
    ensures Reached(list, root, all) && IndexOf(list, index) && root in index
    ensures forall n: Node? | n in list && n != null :: ValidNode(n, schema) && Children(n) <= index.Keys
  {
    hide Linked;
    var indexer := new NodeIndexer();
    LinkedNull(root);
    indexer.MakeIndex(root, null, all, {}, schema, root);
    list, index := indexer.nodeList, indexer.nodeIndex;
    forall n: Node? | n in list && n != null ensures n in all && Children(n) <= index.Keys {
      assert n in index && indexer.Finished(n);
    }
    forall c <- index.Keys ensures c in list {
      assert list[index[c]] == c;
    }
  }

  // ----- loading -----

  predicate InRange(indices: seq<nat>, count: nat) {
    forall k | 0 <= k < |indices| :: indices[k] < count
  }

  /** Every field is there, with the right kind of value. */
  predicate FieldsFit(attrs: map<string, Attr>, fs: seq<Field>, count: nat) {
    forall i | 0 <= i < |fs| :: fs[i].key in attrs && AttrFits(attrs[fs[i].key], fs[i], count)
  }

  predicate AttrFits(a: Attr, f: Field, count: nat) {
    a.Index? == f.isRef && (a.Index? ==> a.index < count)
  }

  /** The saved node can be loaded into a graph of count nodes. */
  predicate Fits(j: JsonNode, count: nat, schema: Schema, registered: set<string>) {
    j.typeKey == "" ||
    (&& j.typeKey in registered
     && (if j.typeKey == ARRAY_KEY then InRange(j.data, count)
         else if j.typeKey == MAP_KEY then |j.data| % 2 == 0 && InRange(j.data, count)
         else FieldsFit(j.attrs, schema(j.typeKey), count)))
  }

  predicate GraphFits(g: JsonGraph, schema: Schema, registered: set<string>) {
    g.root < |g.nodes| && forall i | 0 <= i < |g.nodes| :: Fits(g.nodes[i], |g.nodes|, schema, registered)
  }

  function Look(nodes: seq<Node?>, indices: seq<nat>): seq<Node?>
    requires InRange(indices, |nodes|)
  {
    seq(|indices|, k requires 0 <= k < |indices| => nodes[indices[k]])
  }

  /** The map of the first k pairs; a later pair wins. */
  function MapFrom(nodes: seq<Node?>, data: seq<nat>, k: nat): map<Node?, Node?>
    requires InRange(data, |nodes|) && 2 * k <= |data|
  {
    if k == 0 then map[] else MapFrom(nodes, data, k - 1)[nodes[KeyAt(data, k - 1)] := nodes[ValueAt(data, k - 1)]]
  }

  function KeyAt(data: seq<nat>, i: nat): nat
    requires 2 * i + 1 < |data|
  {
    data[2 * i]
  }

  function ValueAt(data: seq<nat>, i: nat): nat
    requires 2 * i + 1 < |data|
  {
    data[2 * i + 1]
  }

  function LoadedValue(a: Attr, nodes: seq<Node?>): Value {
    if a.Text? then Prim(a.text) else Ref(if a.index < |nodes| then nodes[a.index] else null)
  }

  /** n has the contents of j, with the nodes for the indices. */
  ghost predicate Loaded(j: JsonNode, n: Node?, nodes: seq<Node?>, schema: Schema)
    reads n
  {
    if j.typeKey == "" then n == null
    else
      && n != null && n.typeKey == j.typeKey
      && (n.typeKey == ARRAY_KEY ==> InRange(j.data, |nodes|) && n.data == Look(nodes, j.data))
      && (n.typeKey == MAP_KEY ==> InRange(j.data, |nodes|) && n.entries == MapFrom(nodes, j.data, |j.data| / 2))
      && (Plain(n.typeKey) ==> LoadedFields(j.attrs, n.fields, nodes, schema(n.typeKey)))
  }

  predicate LoadedFields(attrs: map<string, Attr>, fields: seq<Value>, nodes: seq<Node?>, fs: seq<Field>) {
    |fields| == |fs| && forall i | 0 <= i < |fs| :: fs[i].key in attrs && fields[i] == LoadedValue(attrs[fs[i].key], nodes)
  }

  method LookAll(nodes: seq<Node?>, indices: seq<nat>) returns (ok: bool, found: seq<Node?>)
    ensures ok <==> InRange(indices, |nodes|)
    ensures ok ==> found == Look(nodes, indices)
  {
    found := [];
    for i := 0 to |indices|
      invariant InRange(indices[..i], |nodes|) && found == Look(nodes, indices[..i])
    {
      assert indices[..i + 1][i] == indices[i];
      if indices[i] >= |nodes| {
        return false, found;
      }
      found := found + [nodes[indices[i]]];
    }
    assert indices[..|indices|] == indices;
    return true, found;
  }

  method SetFields(attrs: map<string, Attr>, nodes: seq<Node?>, fs: seq<Field>) returns (ok: bool, fields: seq<Value>)
    ensures ok <==> FieldsFit(attrs, fs, |nodes|)
    ensures ok ==> LoadedFields(attrs, fields, nodes, fs)
  {
    fields := [];
    for i := 0 to |fs|
      invariant |fields| == i
      invariant forall k | 0 <= k < i :: fs[k].key in attrs && AttrFits(attrs[fs[k].key], fs[k], |nodes|)
      invariant forall k | 0 <= k < i :: fields[k] == LoadedValue(attrs[fs[k].key], nodes)
    {
      if fs[i].key !in attrs || !AttrFits(attrs[fs[i].key], fs[i], |nodes|) {
        return false, fields;
      }
      fields := fields + [LoadedValue(attrs[fs[i].key], nodes)];
    }
    return true, fields;
  }

  method SetEntries(n: Node, data: seq<nat>, nodes: seq<Node?>) returns (ok: bool)
    requires n.entries == map[]
    modifies n`entries
    ensures ok <==> |data| % 2 == 0 && InRange(data, |nodes|)
    ensures ok ==> n.entries == MapFrom(nodes, data, |data| / 2)
  {
    if |data| % 2 != 0 {
      return false;
    }
    var found;
    ok, found := LookAll(nodes, data);
    if !ok {
      return;
    }
    for i := 0 to |data| / 2
      invariant n.entries == MapFrom(nodes, data, i)
    {
      n.entries := n.entries[found[2 * i] := found[2 * i + 1]];
    }
  }

  /** Patches a new node. */
  method SetNode(n: Node?, j: JsonNode, nodes: seq<Node?>, schema: Schema, registered: set<string>) returns (ok: bool)
    requires if j.typeKey == "" then n == null else n != null && n.typeKey == j.typeKey && j.typeKey in registered && n.entries == map[]
    modifies n
    ensures ok <==> Fits(j, |nodes|, schema, registered)
    ensures ok ==> Loaded(j, n, nodes, schema)
  {
    if n == null {
      return true;
    }
    if n.typeKey == ARRAY_KEY {
      var data;
      ok, data := LookAll(nodes, j.data);
      n.data := data;
    } else if n.typeKey == MAP_KEY {
      ok := SetEntries(n, j.data, nodes);
    } else {
      var fields;
      ok, fields := SetFields(j.attrs, nodes, schema(n.typeKey));
      n.fields := fields;
    }
  }

  /** A new node for every saved one that has a type. */
  method NewNodes(js: seq<JsonNode>, registered: set<string>) returns (ok: bool, nodes: seq<Node?>)
    ensures ok <==> forall j <- js :: j.typeKey == "" || j.typeKey in registered
    ensures ok ==> |nodes| == |js| && forall i | 0 <= i < |js| :: IsNew(js[i], nodes[i])
    ensures ok ==> forall i | 0 <= i < |nodes| :: nodes[i] == null || fresh(nodes[i])
    ensures ok ==> forall i, k | 0 <= i < k < |nodes| :: nodes[i] == null || nodes[i] != nodes[k]
  {
    nodes := [];
    for i := 0 to |js|
      invariant |nodes| == i
      invariant forall k | 0 <= k < i :: js[k].typeKey == "" || js[k].typeKey in registered
      invariant forall k | 0 <= k < i :: IsNew(js[k], nodes[k])
      invariant forall k | 0 <= k < i :: nodes[k] == null || fresh(nodes[k])
      invariant forall j, k | 0 <= j < k < i :: nodes[j] == null || nodes[j] != nodes[k]
    {
      if js[i].typeKey != "" {
        if js[i].typeKey !in registered {
          assert js[i] in js;
          return false, nodes;
        }
        var n := new Node(js[i].typeKey);
        nodes := nodes + [n];
      } else {
        nodes := nodes + [null];
      }
    }
    return true, nodes;
  }

  ghost predicate IsNew(j: JsonNode, n: Node?)
    reads n
  {
    if j.typeKey == "" then n == null else n != null && n.typeKey == j.typeKey && n.entries == map[]
  }

  /** Loads a graph; fails when an index, a type or a field is wrong. */
  method LoadGraph(g: JsonGraph, schema: Schema, registered: set<string>) returns (ok: bool, root: Node?, ghost nodes: seq<Node?>)
    ensures ok <==> GraphFits(g, schema, registered)
    ensures ok ==> |nodes| == |g.nodes| && root == nodes[g.root] && forall i | 0 <= i < |nodes| :: Loaded(g.nodes[i], nodes[i], nodes, schema)
    ensures ok ==> forall i | 0 <= i < |nodes| :: nodes[i] == null || fresh(nodes[i])
    ensures ok ==> forall i, k | 0 <= i < k < |nodes| :: nodes[i] == null || nodes[i] != nodes[k]
  {
    root := null;
    var list;
    ok, list := NewNodes(g.nodes, registered);
    nodes := list;
    if !ok {
      return;
    }
    for i := 0 to |list|
      invariant forall k | i <= k < |list| :: IsNew(g.nodes[k], list[k])
      invariant forall k | 0 <= k < i :: Loaded(g.nodes[k], list[k], list, schema) && Fits(g.nodes[k], |list|, schema, registered)
    {
      assert g.nodes[i] in g.nodes;
      ok := SetNode(list[i], g.nodes[i], list, schema, registered);
      if !ok {
        return;
      }
    }
    if g.root >= |list| {
      return false, null, nodes;
    }
    return true, list[g.root], nodes;
  }

  // ----- saving and loading -----

  /** x in the old graph and y in the new one have the same index. */
  ghost predicate Twins(olds: seq<Node?>, news: seq<Node?>, x: Node?, y: Node?) {
    exists i :: 0 <= i < |olds| && i < |news| && olds[i] == x && news[i] == y
  }

  ghost predicate TwinArrays(olds: seq<Node?>, news: seq<Node?>, xs: seq<Node?>, ys: seq<Node?>) {
    |xs| == |ys| && forall k | 0 <= k < |xs| :: Twins(olds, news, xs[k], ys[k])
  }

  ghost predicate TwinEntries(olds: seq<Node?>, news: seq<Node?>, xs: map<Node?, Node?>, ys: map<Node?, Node?>) {
    && (forall k <- xs :: exists k1 <- ys :: TwinPair(olds, news, xs, k, ys, k1))
    && (forall k1 <- ys :: exists k <- xs :: TwinPair(olds, news, xs, k, ys, k1))
  }

  ghost predicate TwinPair(olds: seq<Node?>, news: seq<Node?>, xs: map<Node?, Node?>, k: Node?, ys: map<Node?, Node?>, k1: Node?)
    requires k in xs && k1 in ys
  {
    Twins(olds, news, k, k1) && Twins(olds, news, xs[k], ys[k1])
  }

  ghost predicate TwinFields(olds: seq<Node?>, news: seq<Node?>, xs: seq<Value>, ys: seq<Value>) {
    |xs| == |ys| && forall k | 0 <= k < |xs| :: if xs[k].Prim? then ys[k] == xs[k] else ys[k].Ref? && Twins(olds, news, xs[k].node, ys[k].node)
  }

  /** Nodes of the same type and with the same contents, up to the numbering. */
  ghost predicate SameShape(olds: seq<Node?>, news: seq<Node?>, x: Node?, y: Node?)
    reads x, y
  {
    if x == null then y == null
    else
      && y != null && x.typeKey == y.typeKey
      && (x.typeKey == ARRAY_KEY ==> TwinArrays(olds, news, x.data, y.data))
      && (x.typeKey == MAP_KEY ==> TwinEntries(olds, news, x.entries, y.entries))
      && (Plain(x.typeKey) ==> TwinFields(olds, news, x.fields, y.fields))
  }

  /** The numbering matches the nodes of the two graphs one to one, and the roots, and keeps types and contents. */
  ghost predicate Isomorphic(olds: seq<Node?>, news: seq<Node?>, root: Node?, copy: Node?)
    reads olds, news
  {
    && |olds| == |news| && Distinct(olds) && Distinct(news) && Twins(olds, news, root, copy)
    && forall i | 0 <= i < |olds| :: SameShape(olds, news, olds[i], news[i])
  }

  lemma {:induction false} ArraysTwin(olds: seq<Node?>, news: seq<Node?>, nodeIndex: map<Node?, nat>, xs: seq<Node?>, saved: seq<nat>)
    requires |olds| == |news| && IndexOf(olds, nodeIndex) && SavedArray(xs, saved, nodeIndex) && InRange(saved, |news|)
    ensures TwinArrays(olds, news, xs, Look(news, saved))
  {
    forall k | 0 <= k < |xs| ensures Twins(olds, news, xs[k], Look(news, saved)[k]) {
      assert olds[saved[k]] == xs[k];
    }
  }

  /** Equal keys in the pairs come with equal values. */
  ghost predicate Consistent(data: seq<nat>) {
    forall i, j | 0 <= i < |data| / 2 && 0 <= j < |data| / 2 && KeyAt(data, i) == KeyAt(data, j) :: ValueAt(data, i) == ValueAt(data, j)
  }

  lemma {:induction false} MapFromRight(nodes: seq<Node?>, data: seq<nat>, k: nat)
    requires InRange(data, |nodes|) && 2 * k <= |data| && Distinct(nodes) && Consistent(data)
    ensures forall i | 0 <= i < k :: nodes[KeyAt(data, i)] in MapFrom(nodes, data, k) && MapFrom(nodes, data, k)[nodes[KeyAt(data, i)]] == nodes[ValueAt(data, i)]
    ensures forall x <- MapFrom(nodes, data, k) :: exists i :: 0 <= i < k && x == nodes[KeyAt(data, i)]
  {
    if k > 0 {
      MapFromRight(nodes, data, k - 1);
      var m := MapFrom(nodes, data, k);
      forall i | 0 <= i < k ensures nodes[KeyAt(data, i)] in m && m[nodes[KeyAt(data, i)]] == nodes[ValueAt(data, i)] {
        if KeyAt(data, i) == KeyAt(data, k - 1) {
          assert ValueAt(data, i) == ValueAt(data, k - 1);
        }
      }
      assert nodes[KeyAt(data, k - 1)] in m;
    }
  }

  lemma {:induction false} SavedConsistent(entries: map<Node?, Node?>, saved: seq<nat>, olds: seq<Node?>, nodeIndex: map<Node?, nat>)
    requires IndexOf(olds, nodeIndex) && SavedEntries(entries, saved, nodeIndex)
    ensures Consistent(saved)
  {
    forall i, j | 0 <= i < |saved| / 2 && 0 <= j < |saved| / 2 && KeyAt(saved, i) == KeyAt(saved, j) ensures ValueAt(saved, i) == ValueAt(saved, j) {
      assert OfEntry(entries, saved, i, nodeIndex) && OfEntry(entries, saved, j, nodeIndex);
      var k: Node? :| k in entries && SavedEntry(entries, k, saved, i, nodeIndex);
      var l: Node? :| l in entries && SavedEntry(entries, l, saved, j, nodeIndex);
      assert k == olds[nodeIndex[k]] == olds[nodeIndex[l]] == l;
    }
  }

  lemma {:induction false} EntriesTwin(olds: seq<Node?>, news: seq<Node?>, nodeIndex: map<Node?, nat>, xs: map<Node?, Node?>, saved: seq<nat>)
    requires |olds| == |news| && IndexOf(olds, nodeIndex) && Distinct(news) && SavedEntries(xs, saved, nodeIndex) && InRange(saved, |news|)
    ensures TwinEntries(olds, news, xs, MapFrom(news, saved, |saved| / 2))
  {
    hide TwinPair, SavedEntries, MapFrom, IndexOf, Distinct;
    var ys := MapFrom(news, saved, |saved| / 2);
    forall k <- xs ensures exists k1 <- ys :: TwinPair(olds, news, xs, k, ys, k1) {
      var k1 := TwinOfOld(olds, news, nodeIndex, xs, saved, k);
    }
    forall k1 <- ys ensures exists k <- xs :: TwinPair(olds, news, xs, k, ys, k1) {
      var k := TwinOfNew(olds, news, nodeIndex, xs, saved, k1);
    }
  }

  lemma {:induction false} TwinOfOld(olds: seq<Node?>, news: seq<Node?>, nodeIndex: map<Node?, nat>, xs: map<Node?, Node?>, saved: seq<nat>, k: Node?) returns (k1: Node?)
    requires |olds| == |news| && IndexOf(olds, nodeIndex) && Distinct(news) && SavedEntries(xs, saved, nodeIndex) && InRange(saved, |news|)
    requires k in xs
    ensures var ys := MapFrom(news, saved, |saved| / 2); k1 in ys && TwinPair(olds, news, xs, k, ys, k1)
  {
    hide Twins, Distinct, Consistent, IndexOf, MapFrom;
    SavedConsistent(xs, saved, olds, nodeIndex);
    MapFromRight(news, saved, |saved| / 2);
    var i :| 0 <= i < |saved| / 2 && SavedEntry(xs, k, saved, i, nodeIndex);
    PairTwins(olds, news, nodeIndex, xs, k, saved, i);
    k1 := news[KeyAt(saved, i)];
  }

  lemma {:induction false} TwinOfNew(olds: seq<Node?>, news: seq<Node?>, nodeIndex: map<Node?, nat>, xs: map<Node?, Node?>, saved: seq<nat>, k1: Node?) returns (k: Node?)
    requires |olds| == |news| && IndexOf(olds, nodeIndex) && Distinct(news) && SavedEntries(xs, saved, nodeIndex) && InRange(saved, |news|)
    requires k1 in MapFrom(news, saved, |saved| / 2)
    ensures k in xs && TwinPair(olds, news, xs, k, MapFrom(news, saved, |saved| / 2), k1)
  {
    hide Twins, Distinct, Consistent, IndexOf, MapFrom;
    SavedConsistent(xs, saved, olds, nodeIndex);
    MapFromRight(news, saved, |saved| / 2);
    var i :| 0 <= i < |saved| / 2 && k1 == news[KeyAt(saved, i)];
    assert OfEntry(xs, saved, i, nodeIndex);
    k :| k in xs && SavedEntry(xs, k, saved, i, nodeIndex);
    PairTwins(olds, news, nodeIndex, xs, k, saved, i);
  }

  lemma {:induction false} PairTwins(olds: seq<Node?>, news: seq<Node?>, nodeIndex: map<Node?, nat>, xs: map<Node?, Node?>, k: Node?, saved: seq<nat>, i: nat)
    requires |olds| == |news| && IndexOf(olds, nodeIndex) && InRange(saved, |news|)
    requires k in xs && 2 * i + 1 < |saved| && SavedEntry(xs, k, saved, i, nodeIndex)
    ensures Twins(olds, news, k, news[KeyAt(saved, i)]) && Twins(olds, news, xs[k], news[ValueAt(saved, i)])
  {
    assert olds[saved[2 * i]] == k && olds[saved[2 * i + 1]] == xs[k];
  }

  lemma {:induction false} FieldsTwin(olds: seq<Node?>, news: seq<Node?>, nodeIndex: map<Node?, nat>, xs: seq<Value>, ys: seq<Value>, attrs: map<string, Attr>, fs: seq<Field>)
    requires |olds| == |news| && IndexOf(olds, nodeIndex) && SavedFields(xs, attrs, nodeIndex, fs) && LoadedFields(attrs, ys, news, fs)
    requires forall f <- xs | f.Ref? :: f.node in nodeIndex
    ensures TwinFields(olds, news, xs, ys)
  {
    forall k | 0 <= k < |xs| ensures if xs[k].Prim? then ys[k] == xs[k] else ys[k].Ref? && Twins(olds, news, xs[k].node, ys[k].node) {
      if xs[k].Ref? {
        assert xs[k] in xs;
        assert olds[nodeIndex[xs[k].node]] == xs[k].node;
      }
    }
  }

  /** What is saved from x and loaded into y gives y the shape of x. */
  lemma {:induction false} SavedLoaded(olds: seq<Node?>, news: seq<Node?>, nodeIndex: map<Node?, nat>, x: Node?, y: Node?, j: JsonNode, schema: Schema)
    requires |olds| == |news| && IndexOf(olds, nodeIndex) && Distinct(news)
    requires Saved(x, j, nodeIndex, schema) && Loaded(j, y, news, schema) && (x != null ==> x.typeKey != "")
    ensures SameShape(olds, news, x, y)
  {
    if x != null {
      if x.typeKey == ARRAY_KEY {
        ArraysTwin(olds, news, nodeIndex, x.data, j.data);
      } else if x.typeKey == MAP_KEY {
        EntriesTwin(olds, news, nodeIndex, x.entries, j.data);
      } else {
        assert forall f <- x.fields | f.Ref? :: f.node in Children(x);
        FieldsTwin(olds, news, nodeIndex, x.fields, y.fields, j.attrs, schema(x.typeKey));
      }
    }
  }

  lemma {:induction false} SavedFits(olds: seq<Node?>, nodeIndex: map<Node?, nat>, x: Node?, j: JsonNode, schema: Schema, registered: set<string>)
    requires IndexOf(olds, nodeIndex) && Saved(x, j, nodeIndex, schema) && (x != null ==> ValidNode(x, schema))
    ensures Fits(j, |olds|, schema, registered) <==> x == null || x.typeKey in registered
  {
    if x != null {
      if x.typeKey == MAP_KEY {
        EntriesInRange(olds, nodeIndex, x.entries, j.data);
      } else if Plain(x.typeKey) {
        assert forall f <- x.fields | f.Ref? :: f.node in Children(x);
        forall i | 0 <= i < |schema(x.typeKey)| ensures AttrFits(j.attrs[schema(x.typeKey)[i].key], schema(x.typeKey)[i], |olds|) {
          assert x.fields[i] in x.fields;
        }
      }
    }
  }

  lemma {:induction false} EntriesInRange(olds: seq<Node?>, nodeIndex: map<Node?, nat>, xs: map<Node?, Node?>, saved: seq<nat>)
    requires IndexOf(olds, nodeIndex) && SavedEntries(xs, saved, nodeIndex)
    ensures InRange(saved, |olds|)
  {
    forall k | 0 <= k < |saved| ensures saved[k] < |olds| {
      assert OfEntry(xs, saved, k / 2, nodeIndex);
    }
  }

  /** Saving and loading gives an isomorphic graph with the right root, exactly when the types of all nodes are registered.
      Cycles, shared children, null and maps are all allowed. */
  method SaveLoad(root: Node?, schema: Schema, registered: set<string>, ghost all: set<Node>)
    returns (ok: bool, copy: Node?, ghost olds: seq<Node?>, ghost news: seq<Node?>)
    requires Closed(all, schema) && (root != null ==> root in all)
    ensures Reached(olds, root, all)
    ensures ok <==> forall n: Node? | n in olds && n != null :: n.typeKey in registered
    ensures ok ==> Isomorphic(olds, news, root, copy) && forall i | 0 <= i < |news| :: news[i] == null || fresh(news[i])
  {
    hide Linked;
    var g;
    ghost var nodeIndex;
    g, olds, nodeIndex := CreateGraph(root, schema, all);
    forall i | 0 <= i < |olds| ensures Fits(g.nodes[i], |olds|, schema, registered) <==> olds[i] == null || olds[i].typeKey in registered {
      assert olds[i] in olds;
      SavedFits(olds, nodeIndex, olds[i], g.nodes[i], schema, registered);
    }
    ok, copy, news := LoadGraph(g, schema, registered);
    if ok {
      assert forall i | 0 < i < |olds| :: olds[i] in olds && olds[i] != null;
      assert Distinct(news);
      forall i | 0 <= i < |olds| ensures SameShape(olds, news, olds[i], news[i]) {
        assert olds[i] in olds;
        SavedLoaded(olds, news, nodeIndex, olds[i], news[i], g.nodes[i], schema);
      }
    }
  }
}
