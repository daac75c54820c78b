/**
 * The path router as it is stored: heap nodes linked through their child tables. A ghost table
 * says which node stands for which path; it shows the nodes to be an unshared tree whose content
 * is the map of module Routes.
 */
module PathTrie {
  import opened Text
  import opened Routes
  import Url

  class PathNode<T> {
    const path: string
    var data: Option<T>
    var children: map<string, PathNode<T>>

    constructor (path: string)
      ensures this.path == path && data == None && children == map[]
    {
      this.path := path;
      data := None;
      children := map[];
    }
  }

  /** The path one segment below `p`. */
  function Below(p: Key, segment: string): Key {
    p + [segment]
  }

  lemma BelowIsInjective(p: Key, segment: string)
    ensures forall q, s :: Below(q, s) == Below(p, segment) ==> q == p && s == segment
  {
    forall q: Key, s: string | Below(q, s) == Below(p, segment)
      ensures q == p && s == segment
    {
      assert q == Below(q, s)[..|q|] && s == Below(q, s)[|q|];
      assert p == Below(p, segment)[..|p|];
    }
  }

  datatype Found<T> = Answer(data: Option<T>) | Throws

  class Router<T> {
    var root: PathNode<T>
    ghost var nodes: map<Key, PathNode<T>>

    ghost predicate Tree()
      reads this, nodes.Values
    {
      && [] in nodes && nodes[[]] == root
      && (forall p, q :: p in nodes && q in nodes && nodes[p] == nodes[q] ==> p == q)
      && (forall p, s :: p in nodes && s in nodes[p].children ==>
            s != "" && Below(p, s) in nodes && nodes[Below(p, s)] == nodes[p].children[s])
      && (forall p, s :: Below(p, s) in nodes ==>
            p in nodes && s in nodes[p].children && nodes[Below(p, s)].path == s)
    }

    /** The registered paths and their handlers. */
    ghost function Content(): map<Key, T>
      reads this, nodes.Values
    {
      map p | p in nodes && nodes[p].data.Some? :: nodes[p].data.value
    }

    ghost predicate Valid()
      reads this, nodes.Values
    {
      Tree() && forall p :: p in nodes && p != [] ==> Known(Content(), p)
    }

    constructor ()
      ensures Valid() && fresh(root) && fresh(nodes.Values) && Content() == map[]
    {
      root := new PathNode("");
      new;
      nodes := map[[] := root];
    }

    lemma {:induction false} PrefixIsNode(p: Key, n: nat)
      requires Tree() && p in nodes && n <= |p|
      ensures p[..n] in nodes
      decreases |p|
    {
      if n < |p| {
        var parent := p[..|p| - 1];
        assert p == Below(parent, p[|p| - 1]);
        PrefixIsNode(parent, n);
        assert parent[..n] == p[..n];
      } else {
        assert p[..n] == p;
      }
    }

    /** The nodes are exactly the points on the way to registered paths. */
    lemma NodesAreKnown(p: Key)
      requires Valid()
      ensures p in nodes <==> p == [] || Known(Content(), p)
    {
      if Known(Content(), p) {
        var r :| r in Content() && p <= r;
        PrefixIsNode(r, |p|);
        assert r[..|p|] == p;
      }
    }

    /** Hangs a new node without a handler below an existing one. */
    method Attach(node: PathNode<T>, segment: string, ghost p: Key) returns (next: PathNode<T>)
      requires Tree() && p in nodes && nodes[p] == node && segment != "" && segment !in node.children
      modifies this`nodes, node`children
      ensures root == old(root) && Tree()
      ensures fresh(next) && next.data == None && nodes == old(nodes)[Below(p, segment) := next]
    {
      next := new PathNode(segment);
      node.children := node.children[segment := next];
      assert Below(p, segment) !in nodes;
      nodes := nodes[Below(p, segment) := next];
      BelowIsInjective(p, segment);
    }

    /** Nodes without handlers add nothing to the content. */
    twostate lemma EmptyNodeAddsNothing(p: Key)
      requires p !in old(nodes) && nodes.Keys == old(nodes).Keys + {p} && nodes[p].data == None
      requires forall q :: q in old(nodes) ==> nodes[q] == old(nodes)[q] && nodes[q].data == old(nodes[q].data)
      ensures Content() == old(Content())
    {
    }

    /** Walks or grows the branch by one more segment. */
    method Descend(node: PathNode<T>, segment: string, ghost p: Key) returns (next: PathNode<T>)
      requires Tree() && p in nodes && nodes[p] == node && segment != ""
      modifies this`nodes, node`children
      ensures root == old(root) && Tree()
      ensures Below(p, segment) in nodes && nodes[Below(p, segment)] == next
      ensures nodes == old(nodes) || (fresh(next) && nodes == old(nodes)[Below(p, segment) := next])
      ensures Content() == old(Content())
    {
      if segment in node.children {
        next := node.children[segment];
      } else {
        next := Attach(node, segment, p);
        EmptyNodeAddsNothing(Below(p, segment));
      }
    }

    /** Makes the whole branch for a path exist and returns its last node; no handler changes. */
    method Grow(segments: seq<string>) returns (node: PathNode<T>)
      requires Tree()
      modifies this`nodes, nodes.Values
      ensures Tree() && root == old(root) && fresh(nodes.Values - old(nodes.Values))
      ensures Normal(segments) in nodes && nodes[Normal(segments)] == node
      ensures Content() == old(Content())
      ensures forall p :: p in nodes ==> p in old(nodes) || p <= Normal(segments)
    {
      ghost var key := Normal(segments);
      node := root;
      var i := 0;
      while i < |segments|
        invariant 0 <= i <= |key| && root == old(root)
        invariant Tree() && key[..i] in nodes && nodes[key[..i]] == node
        invariant fresh(nodes.Values - old(nodes.Values))
        invariant Content() == old(Content())
        invariant forall p :: p in nodes ==> p in old(nodes) || p <= key
        decreases |segments| - i
      {
        if segments[i] == "" {
          break;
        }
        assert key[..i + 1] == Below(key[..i], segments[i]);
        node := Descend(node, segments[i], key[..i]);
        i := i + 1;
      }
      assert key[..i] == key;
    }

    /** Hangs a handler on an existing node, which accounts for the branch that leads there. */
    method SetData(node: PathNode<T>, ghost key: Key, data: T)
      requires Tree() && key in nodes && nodes[key] == node
      requires forall p :: p in nodes && p != [] ==> Known(Content(), p) || p <= key
      modifies node`data
      ensures Valid() && Content() == old(Content())[key := data]
    {
      node.data := Some(data);
      assert Content() == old(Content())[key := data];
      KnownAfterInsertAll(old(Content()), key, data);
    }

    /** Registration of an already split path. */
    method InsertSegments(segments: seq<string>, data: T)
      requires Valid()
      modifies this`nodes, nodes.Values
      ensures Valid() && root == old(root)
      ensures fresh(nodes.Values - old(nodes.Values))
      ensures Content() == old(Content())[Normal(segments) := data]
    {
      if |segments| == 0 {
        SetData(root, [], data);
        return;
      }
      var node := Grow(segments);
      SetData(node, Normal(segments), data);
    }

    lemma KnownAfterInsertAll(routes: map<Key, T>, key: Key, data: T)
      ensures forall p :: Known(routes, p) || p <= key ==> Known(routes[key := data], p)
    {
      forall p: Key | Known(routes, p) || p <= key
        ensures Known(routes[key := data], p)
      {
        KnownAfterInsert(routes, key, data, p);
      }
    }

    /** Registration of a path as the application writes it. */
    method Insert(path: string, data: Option<T>) returns (outcome: Checked)
      requires Valid()
      modifies this`nodes, nodes.Values
      ensures Valid() && root == old(root)
      ensures fresh(nodes.Values - old(nodes.Values))
      ensures outcome == Check(path, data)
      ensures outcome.Refuse? ==> Content() == old(Content()) && nodes == old(nodes)
      ensures outcome.Accept? ==> Content() == old(Content())[outcome.key := data.value]
    {
      if data.None? {
        return Refuse(NullData);
      }
      if path == [] || path[0] != '/' {
        return Refuse(NoLeadingSlash);
      }
      if Contains(path, "..") {
        return Refuse(DotDot);
      }
      if !Url.ValidText(path, false, false) {
        return Refuse(BadPath);
      }
      var segments := Url.Segments(path);
      InsertSegments(segments, data.value);
      outcome := Accept(Normal(segments));
    }

    /** The query walk over an already split path. */
    method SearchSegments(segments: seq<string>) returns (answer: Option<T>)
      requires Valid()
      ensures answer == Lookup(Content(), segments)
    {
      if |segments| == 0 {
        return root.data;
      }
      ghost var key := Normal(segments);
      var node := root;
      var i := 0;
      while i < |segments|
        invariant 0 <= i <= |key|
        invariant key[..i] in nodes && nodes[key[..i]] == node
        decreases |segments| - i
      {
        if segments[i] == "" {
          break;
        }
        assert i < |key|;
        assert key[..i + 1] == Below(key[..i], segments[i]);
        if segments[i] !in node.children {
          break;
        }
        node := node.children[segments[i]];
        i := i + 1;
      }
      WalkEndsAtDepth(key, i);
      answer := if node == root then None else node.data;
      assert node == root <==> i == 0;
    }

    /** A walk that cannot go on has reached the depth of the query. */
    lemma WalkEndsAtDepth(key: Key, i: nat)
      requires Valid() && i <= |key| && key[..i] in nodes
      requires i == |key| || key[..i + 1] !in nodes
      ensures Depth(Content(), key, |key|) == i
    {
      if i > 0 { NodesAreKnown(key[..i]); }
      forall k | i < k <= |key|
        ensures !Known(Content(), key[..k])
      {
        assert key[..k][..i + 1] == key[..i + 1];
        if key[..k] in nodes {
          PrefixIsNode(key[..k], i + 1);
          assert false;
        }
        NodesAreKnown(key[..k]);
      }
      DepthIs(Content(), key, |key|, i);
    }

    /** The query walk over a path as text. */
    method Search(path: string) returns (found: Found<T>)
      requires Valid()
      ensures path == [] ==> found == Answer(Get(Content(), []))
      ensures path != [] && path[0] != '/' ==> found == Answer(None)
      ensures path != [] && path[0] == '/' && !Url.ValidText(path, false, false) ==> found == Throws
      ensures path != [] && path[0] == '/' && Url.ValidText(path, false, false) ==>
          found == Answer(Lookup(Content(), Url.Segments(path)))
    {
      if |path| == 0 {
        return Answer(root.data);
      }
      if path[0] != '/' {
        return Answer(None);
      }
      if !Url.ValidText(path, false, false) {
        return Throws;
      }
      var answer := SearchSegments(Url.Segments(path));
      found := Answer(answer);
    }

    // ---------------------------------------------------------------- destruction

    /** The paths at or below `p`. */
    ghost function Under(p: Key): set<Key>
      reads this
    {
      set q | q in nodes && p <= q
    }

    /** `paths` lists the paths of `these` once each. */
    ghost predicate Lists(freed: seq<PathNode<T>>, paths: seq<Key>, these: set<Key>)
      reads this
    {
      && |freed| == |paths|
      && (forall i :: 0 <= i < |paths| ==> paths[i] in nodes && freed[i] == nodes[paths[i]])
      && (forall i, j :: 0 <= i < j < |paths| ==> paths[i] != paths[j])
      && (forall q :: q in these <==> q in paths)
    }

    lemma ListsAppend(
      f1: seq<PathNode<T>>, p1: seq<Key>, s1: set<Key>, f2: seq<PathNode<T>>, p2: seq<Key>, s2: set<Key>)
      requires Lists(f1, p1, s1) && Lists(f2, p2, s2) && s1 !! s2
      ensures Lists(f1 + f2, p1 + p2, s1 + s2)
    {
      forall i, j | 0 <= i < j < |p1 + p2|
        ensures (p1 + p2)[i] != (p1 + p2)[j]
      {
        if i < |p1| <= j {
          assert p1[i] in s1 && p2[j - |p1|] in s2;
        }
      }
    }

    /** The paths below `p` through one of the child segments in `done`. */
    ghost function Through(p: Key, done: set<string>): set<Key>
      reads this
    {
      set q | q in nodes && |p| < |q| && p <= q && q[|p|] in done
    }

    lemma ThroughChild(p: Key, s: string)
      requires Tree() && p in nodes && s in nodes[p].children
      ensures Under(Below(p, s)) == Through(p, {s})
    {
      forall q | q in nodes
        ensures Below(p, s) <= q <==> |p| < |q| && p <= q && q[|p|] == s
      {
        if |p| < |q| { assert q[..|p| + 1] == q[..|p|] + [q[|p|]]; }
      }
    }

    lemma UnderIsThroughChildren(p: Key)
      requires Tree() && p in nodes
      ensures Under(p) == Through(p, nodes[p].children.Keys) + {p}
    {
      forall q | q in nodes && p <= q && |p| < |q|
        ensures q[|p|] in nodes[p].children
      {
        PrefixIsNode(q, |p| + 1);
        assert q[..|p| + 1] == Below(p, q[|p|]);
      }
      forall q | q in nodes && p <= q && |p| == |q| ensures q == p {}
    }

    /** Destruction of a node: its children first, each with everything below it, then itself. */
    method Delete(node: PathNode<T>, ghost p: Key) returns (freed: seq<PathNode<T>>, ghost paths: seq<Key>)
      requires Tree() && p in nodes && nodes[p] == node
      ensures Lists(freed, paths, Under(p))
      decreases Under(p)
    {
      freed, paths := [], [];
      ghost var done := {};
      var left := node.children.Keys;
      while left != {}
        invariant done + left == node.children.Keys && done !! left
        invariant Lists(freed, paths, Through(p, done))
        decreases left
      {
        var s :| s in left;
        ThroughChild(p, s);
        UnderIsThroughChildren(p);
        assert p in Under(p) && p !in Under(Below(p, s));
        var more, morePaths := Delete(node.children[s], Below(p, s));
        ListsAppend(freed, paths, Through(p, done), more, morePaths, Through(p, {s}));
        assert Through(p, done) + Through(p, {s}) == Through(p, done + {s});
        freed, paths := freed + more, paths + morePaths;
        done, left := done + {s}, left - {s};
      }
      UnderIsThroughChildren(p);
      assert done == node.children.Keys;
      ListsAppend(freed, paths, Through(p, done), [node], [p], {p});
      freed, paths := freed + [node], paths + [p];
    }

    /** Destruction of the router frees every node of the tree exactly once. */
    method Destroy() returns (freed: seq<PathNode<T>>)
      requires Valid()
      ensures forall n :: n in nodes.Values <==> n in freed
      ensures forall i, j :: 0 <= i < j < |freed| ==> freed[i] != freed[j]
    {
      ghost var paths: seq<Key>;
      freed, paths := Delete(root, []);
      assert forall q :: q in nodes ==> q in Under([]);
    }
  }

  /** An application registering its handlers one after the other before the server runs. */
  method RegisterHandlers<T>(ops: seq<Registration<T>>) returns (router: Router<T>)
    ensures fresh(router) && router.Valid() && router.Content() == RegisterAll(ops)
  {
    router := new Router<T>();
    for i := 0 to |ops|
      invariant router.Valid() && fresh(router) && fresh(router.nodes.Values)
      invariant router.Content() == RegisterAll(ops[..i])
    {
      assert ops[..i + 1][..i] == ops[..i];
      var outcome := router.Insert(ops[i].path, ops[i].data);
    }
    assert ops[..|ops|] == ops;
  }
}
