/**
  The CLI reference generator's walk over the command tree: `discover_commands` and its inner `walk`.
*/
module CliReference {
  import opened Sequences

  /** A group with its subcommands in registration order; a leaf has none. */
  datatype Node = Node(commands: seq<Command>)

  datatype Command = Command(name: string, node: Node)

  type Path = seq<string>

  /** The subcommands are a dictionary: no name occurs twice in one group, at any depth. */
  ghost predicate IsTree(node: Node)
    decreases node
  {
    && (forall i, j | 0 <= i < j < |node.commands| :: node.commands[i].name != node.commands[j].name)
    && (forall c | c in node.commands :: IsTree(c.node))
  }

  predicate CommandLe(c: Command, d: Command) {
    StringLe(c.name, d.name)
  }

  /** `sorted(subcommands)`, each name with its node. */
  function Children(node: Node): (cs: seq<Command>)
    ensures forall c :: c in cs <==> c in node.commands
    ensures |cs| == |node.commands|
  {
    CommandOrder();
    SortIsSortedPermutation(node.commands, CommandLe);
    Sort(node.commands, CommandLe)
  }

  lemma CommandOrder()
    ensures TotalPreorder(CommandLe)
  {
    StringOrder();
  }

  // ----- The walk as a list of argument paths -----

  function Walk(node: Node, path: Path): seq<Path>
    decreases node, |node.commands| + 1
  {
    WalkAll(node, Children(node), path)
  }

  function WalkAll(context: Node, cs: seq<Command>, path: Path): seq<Path>
    requires forall c | c in cs :: c.node < context
    decreases context, |cs|
  {
    if cs == [] then []
    else
      var child := path + [cs[0].name];
      [child] + Walk(cs[0].node, child) + WalkAll(context, cs[1..], path)
  }

  // ----- The generator -----

  function Join(path: Path): string {
    if path == [] then "" else if |path| == 1 then path[0] else path[0] + " " + Join(path[1..])
  }

  /** A title such as "onmc swarm plan" with the arguments that reach the command. */
  datatype Entry = Entry(title: string, args: Path)

  function EntryOf(path: Path): Entry {
    Entry("onmc " + Join(path), path)
  }

  function Entries(paths: seq<Path>): seq<Entry> {
    if paths == [] then [] else [EntryOf(paths[0])] + Entries(paths[1..])
  }

  lemma {:induction false} EntriesConcat(ps: seq<Path>, qs: seq<Path>)
    ensures Entries(ps + qs) == Entries(ps) + Entries(qs)
  {
    if ps == [] {
      assert ps + qs == qs;
    } else {
      assert (ps + qs)[0] == ps[0] && (ps + qs)[1..] == ps[1..] + qs;
      EntriesConcat(ps[1..], qs);
    }
  }

  /** The title is the program's name, and after it each argument with a space before it. */
  ghost predicate Invokes(title: string, args: Path)
    decreases |args|
  {
    if args == [] then title == "onmc"
    else
      var last := " " + args[|args| - 1];
      |last| <= |title| && title[|title| - |last|..] == last && Invokes(title[..|title| - |last|], args[..|args| - 1])
  }

  lemma {:induction false} JoinAppend(path: Path, name: string)
    requires path != []
    ensures Join(path + [name]) == Join(path) + " " + name
  {
    var more := path + [name];
    assert more[0] == path[0] && more[1..] == path[1..] + [name];
    if |path| == 1 {
      assert more[1..] == [name] && Join([name]) == name;
    } else {
      JoinAppend(path[1..], name);
    }
  }

  lemma {:induction false} TitleInvokes(path: Path)
    requires path != []
    ensures Invokes("onmc " + Join(path), path)
  {
    var n := |path| - 1;
    var title, init, last := "onmc " + Join(path), path[..n], " " + path[n];
    assert path == init + [path[n]];
    if n == 0 {
      assert title == "onmc" + last && title[..4] == "onmc" && title[4..] == last;
    } else {
      JoinAppend(init, path[n]);
      TitleInvokes(init);
      assert title == ("onmc " + Join(init)) + last;
      assert title[..|title| - |last|] == "onmc " + Join(init) && title[|title| - |last|..] == last;
    }
  }

  lemma {:induction false} EntriesAt(paths: seq<Path>)
    requires forall i | 0 <= i < |paths| :: paths[i] != []
    ensures |Entries(paths)| == |paths|
    ensures forall i | 0 <= i < |paths| ::
              Entries(paths)[i].args == paths[i] && Invokes(Entries(paths)[i].title, paths[i])
  {
    if paths != [] {
      TitleInvokes(paths[0]);
      EntriesAt(paths[1..]);
    }
  }

  class Discovery {
    var discovered: seq<Entry>

    constructor ()
      ensures discovered == []
    {
      discovered := [];
    }

    /** The root first, then every command below it. */
    method DiscoverCommands(root: Node)
      modifies this
      ensures discovered == [Entry("onmc", [])] + Entries(Walk(root, []))
      ensures |discovered| == 1 + |Walk(root, [])| && discovered[0] == Entry("onmc", [])
      ensures forall i | 0 <= i < |Walk(root, [])| ::
                discovered[i + 1].args == Walk(root, [])[i] && Invokes(discovered[i + 1].title, Walk(root, [])[i])
    {
      forall i | 0 <= i < |Walk(root, [])| ensures Walk(root, [])[i] != [] {
        WalkPaths(root, [], Walk(root, [])[i]);
      }
      EntriesAt(Walk(root, []));
      discovered := [Entry("onmc", [])];
      WalkNode(root, []);
    }

    method WalkNode(node: Node, path: Path)
      modifies this
      ensures discovered == old(discovered) + Entries(Walk(node, path))
      decreases node
    {
      if node.commands == [] {
        assert Children(node) == [];
        return;
      }
      var cs := Children(node);
      ghost var goal := discovered + Entries(Walk(node, path));
      for i := 0 to |cs|
        invariant forall c | c in cs[i..] :: c.node < node
        invariant discovered + Entries(WalkAll(node, cs[i..], path)) == goal
      {
        var childPath := path + [cs[i].name];
        assert cs[i] in cs[i..];
        assert forall c | c in cs[i + 1..] :: c in cs[i..];
        assert cs[i..] == [cs[i]] + cs[i + 1..];
        WalkStep(discovered, node, cs[i], cs[i + 1..], path);
        discovered := discovered + [EntryOf(childPath)];
        WalkNode(cs[i].node, childPath);
      }
      assert cs[|cs|..] == [];
    }
  }

  lemma WalkStep(before: seq<Entry>, context: Node, c: Command, rest: seq<Command>, path: Path)
    requires forall d | d in [c] + rest :: d.node < context
    ensures c.node < context && forall d | d in rest :: d.node < context
    ensures before + Entries(WalkAll(context, [c] + rest, path))
      == (before + [EntryOf(path + [c.name])] + Entries(Walk(c.node, path + [c.name])))
         + Entries(WalkAll(context, rest, path))
  {
    var cs, child := [c] + rest, path + [c.name];
    assert c in cs && forall d | d in rest :: d in cs;
    assert cs[1..] == rest;
    EntriesConcat([child] + Walk(c.node, child), WalkAll(context, rest, path));
    EntriesConcat([child], Walk(c.node, child));
    assert Entries([child]) == [EntryOf(child)] by { assert [child][1..] == []; }
  }

  // ----- The paths are the nodes of the tree -----

  /** Following the names of `p` from `node` leads to a node. */
  ghost predicate Leads(node: Node, p: Path)
    decreases |p|
  {
    p == [] || exists c :: c in node.commands && c.name == p[0] && Leads(c.node, p[1..])
  }

  ghost predicate LeadsAmong(cs: seq<Command>, p: Path) {
    p != [] && exists c :: c in cs && c.name == p[0] && Leads(c.node, p[1..])
  }

  lemma {:induction false} WalkPaths(node: Node, path: Path, q: Path)
    ensures q in Walk(node, path) <==> path < q && Leads(node, q[|path|..])
    decreases node, |node.commands| + 1
  {
    WalkAllPaths(node, Children(node), path, q);
  }

  lemma {:induction false} WalkAllPaths(context: Node, cs: seq<Command>, path: Path, q: Path)
    requires forall c | c in cs :: c.node < context
    ensures q in WalkAll(context, cs, path) <==> path < q && LeadsAmong(cs, q[|path|..])
    decreases context, |cs|
  {
    if cs != [] {
      var c, rest := cs[0], cs[1..];
      var child := path + [c.name];
      assert cs == [c] + rest;
      WalkPaths(c.node, child, q);
      WalkAllPaths(context, rest, path, q);
      assert path <= child;
      if path < q {
        var p := q[|path|..];
        assert child <= q <==> c.name == p[0];
        assert child <= q ==> q[|child|..] == p[1..];
        assert q == child <==> c.name == p[0] && p[1..] == [];
        assert LeadsAmong(cs, p) <==> LeadsAmong(rest, p) || (c.name == p[0] && Leads(c.node, p[1..]));
      }
    }
  }

  // ----- The paths come in strictly increasing order -----

  predicate PathLe(p: Path, q: Path) {
    LexLe(p, q, StringLe)
  }

  ghost predicate Increasing(ps: seq<Path>) {
    forall i, j | 0 <= i < j < |ps| :: PathLe(ps[i], ps[j]) && ps[i] != ps[j]
  }

  lemma {:induction false} ExtensionIsLater(p: Path, s: Path)
    ensures PathLe(p, p + s)
  {
    if p != [] {
      ExtensionIsLater(p[1..], s);
      assert (p + s)[1..] == p[1..] + s;
    }
  }

  lemma {:induction false} SiblingIsLater(path: Path, a: string, b: string, s: Path, t: Path)
    requires StringLe(a, b) && a != b
    ensures PathLe(path + [a] + s, path + [b] + t)
    ensures path + [a] + s != path + [b] + t
  {
    var p, q := path + [a] + s, path + [b] + t;
    assert p[|path|] == a && q[|path|] == b;
    if path != [] {
      SiblingIsLater(path[1..], a, b, s, t);
      assert p[1..] == path[1..] + [a] + s && q[1..] == path[1..] + [b] + t;
    }
  }

  lemma {:induction false} WalkIncreases(node: Node, path: Path)
    requires IsTree(node)
    ensures Increasing(Walk(node, path))
    decreases node, |node.commands| + 1
  {
    CommandOrder();
    SortIsSortedPermutation(node.commands, CommandLe);
    NamesStayDistinct(node);
    WalkAllIncreases(node, Children(node), path);
  }

  lemma NamesStayDistinct(node: Node)
    requires IsTree(node)
    ensures forall i, j | 0 <= i < j < |Children(node)| :: Children(node)[i].name != Children(node)[j].name
  {
    CommandOrder();
    SortIsSortedPermutation(node.commands, CommandLe);
    assert Distinct(node.commands);
    DistinctMultiset(node.commands, Children(node));
    forall c, d | c in node.commands && d in node.commands && c.name == d.name ensures c == d {
      var i :| 0 <= i < |node.commands| && node.commands[i] == c;
      var j :| 0 <= j < |node.commands| && node.commands[j] == d;
      assert !(i < j) && !(j < i);
    }
  }

  lemma {:induction false} WalkAllIncreases(context: Node, cs: seq<Command>, path: Path)
    requires forall c | c in cs :: c.node < context && IsTree(c.node)
    requires SortedBy(cs, CommandLe)
    requires forall i, j | 0 <= i < j < |cs| :: cs[i].name != cs[j].name
    ensures Increasing(WalkAll(context, cs, path))
    decreases context, |cs|
  {
    if cs != [] {
      var c, rest := cs[0], cs[1..];
      var child := path + [c.name];
      var below, after := Walk(c.node, child), WalkAll(context, rest, path);
      WalkIncreases(c.node, child);
      WalkAllIncreases(context, rest, path);
      forall q | q in below ensures PathLe(child, q) && child != q {
        WalkPaths(c.node, child, q);
        ExtensionIsLater(child, q[|child|..]);
        assert q == child + q[|child|..];
      }
      forall p, q | (p == child || p in below) && q in after ensures PathLe(p, q) && p != q {
        WalkPaths(c.node, child, p);
        WalkAllPaths(context, rest, path, q);
        LaterSubtree(cs, path, p, q);
      }
      JoinIncreasing([child], below);
      JoinIncreasing([child] + below, after);
    }
  }

  lemma LaterSubtree(cs: seq<Command>, path: Path, p: Path, q: Path)
    requires cs != [] && SortedBy(cs, CommandLe)
    requires forall i, j | 0 <= i < j < |cs| :: cs[i].name != cs[j].name
    requires path + [cs[0].name] <= p && path < q && LeadsAmong(cs[1..], q[|path|..])
    ensures PathLe(p, q) && p != q
  {
    var d :| d in cs[1..] && d.name == q[|path|] && Leads(d.node, q[|path|..][1..]);
    var k :| 0 <= k < |cs[1..]| && cs[1..][k] == d;
    assert cs[k + 1] == d && CommandLe(cs[0], cs[k + 1]);
    var s, t := p[|path| + 1..], q[|path| + 1..];
    assert p == path + [cs[0].name] + s;
    assert q == path + [d.name] + t;
    SiblingIsLater(path, cs[0].name, d.name, s, t);
  }

  lemma JoinIncreasing(ps: seq<Path>, qs: seq<Path>)
    requires Increasing(ps) && Increasing(qs)
    requires forall p, q | p in ps && q in qs :: PathLe(p, q) && p != q
    ensures Increasing(ps + qs)
  {
  }

  // ----- Main result -----

  /**
    The emitted paths are exactly the nodes below the root, each once and in strictly increasing
    order, and the path of a group comes before those of its subcommands.
   */
  lemma DiscoveryIsComplete(root: Node)
    requires IsTree(root)
    ensures var ps := Walk(root, []);
      && (forall q :: q in ps <==> q != [] && Leads(root, q))
      && Increasing(ps)
      && (forall j | 0 <= j < |ps| && |ps[j]| > 1 :: exists i :: 0 <= i < j && ps[i] == ps[j][..|ps[j]| - 1])
  {
    var ps := Walk(root, []);
    forall q ensures q in ps <==> q != [] && Leads(root, q) {
      WalkPaths(root, [], q);
      assert q[0..] == q;
    }
    WalkIncreases(root, []);
    forall j | 0 <= j < |ps| && |ps[j]| > 1 ensures exists i :: 0 <= i < j && ps[i] == ps[j][..|ps[j]| - 1] {
      var q := ps[j];
      var parent := q[..|q| - 1];
      assert q in ps;
      PrefixLeads(root, q, |q| - 1);
      assert parent in ps;
      var i :| 0 <= i < |ps| && ps[i] == parent;
      ExtensionIsLater(parent, q[|q| - 1..]);
      assert parent + q[|q| - 1..] == q;
      if i > j {
        OrderAntisymmetric(parent, q);
      }
    }
  }

  lemma OrderAntisymmetric(p: Path, q: Path)
    requires PathLe(p, q) && PathLe(q, p)
    ensures p == q
  {
    StringOrder();
    LexTotal(p, q, StringLe);
  }

  lemma {:induction false} PrefixLeads(node: Node, p: Path, n: nat)
    requires n <= |p| && Leads(node, p)
    ensures Leads(node, p[..n])
    decreases |p|
  {
    if n > 0 {
      var c :| c in node.commands && c.name == p[0] && Leads(c.node, p[1..]);
      PrefixLeads(c.node, p[1..], n - 1);
      assert p[..n][1..] == p[1..][..n - 1];
    }
  }
}
