/** The inode cache of fusetrace: entries, hard links, renames and forgetting. */
module InodeCache {
  import opened Wrappers
  import opened InodeGraph

  /** Nobody else with the number of `parent` already links `child` under that name. */
  ghost predicate NoClash(parent: Inode, dname: string, child: Inode)
    reads parent, child
  {
    (dname, parent.ino) in child.parents ==> child.parents[(dname, parent.ino)] == parent
  }

  method RemoveDentry(pin: Inode, dname: string, ghost live: set<Inode>)
    requires pin in live && dname in pin.dentries
    modifies pin`dentries, pin.Entry(dname)`parents
    ensures old(TwoWay(live)) ==> TwoWay(live)
    ensures pin.dentries == old(pin.dentries) - {dname}
    ensures
      var child := old(pin.Entry(dname));
      child.parents == old(pin.Entry(dname).parents) - {(dname, pin.ino)}
  {
    var child := pin.dentries[dname];
    pin.dentries := pin.dentries - {dname};
    child.parents := child.parents - {(dname, pin.ino)};
    if old(TwoWay(live)) {
      assert old(DownOk(live, pin, dname));
      forall p, n | p in live && n in p.dentries ensures DownOk(live, p, n) {
        assert old(DownOk(live, p, n));
      }
      forall c, k | c in live && k in c.parents ensures UpOk(live, c, k) {
        assert old(UpOk(live, c, k));
      }
    }
  }

  /** Links `child` into `parent`, replacing an entry of the same name.  The two-way links
      survive exactly when there is no clash of directory numbers. */
  method AddDentry(parent: Inode, dname: string, child: Inode, ghost live: set<Inode>)
    requires TwoWay(live) && parent in live && child in live
    modifies live`dentries, live`parents
    ensures TwoWay(live) <==> old(NoClash(parent, dname, child))
    ensures forall x :: x in live ==>
      x.dentries == if x == parent then old(x.dentries)[dname := child] else old(x.dentries)
    ensures forall x :: x in live ==> x.parents == old(Placed(parent, dname, child, x))
    ensures child.parents == old(child.parents)[(dname, parent.ino) := parent]
  {
    hide TwoWay;
    ghost var key := (dname, parent.ino);
    if key in child.parents { MirroredUp(child, key, live); }
    if dname in parent.dentries {
      Mirrored(parent, dname, live);
      RemoveDentry(parent, dname, live);
    }
    assert key in child.parents <==> !old(NoClash(parent, dname, child));
    PlaceDentry(parent, dname, child, live);
  }

  method PlaceDentry(parent: Inode, dname: string, child: Inode, ghost live: set<Inode>)
    requires TwoWay(live) && parent in live && child in live && dname !in parent.dentries
    modifies parent`dentries, child`parents
    ensures parent.dentries == old(parent.dentries)[dname := child]
    ensures child.parents == old(child.parents)[(dname, parent.ino) := parent]
    ensures TwoWay(live) <==> (dname, parent.ino) !in old(child.parents)
  {
    ghost var taken := (dname, parent.ino) in child.parents;
    parent.dentries := parent.dentries[dname := child];
    child.parents := child.parents[(dname, parent.ino) := parent];
    if taken {
      assert old(UpOk(live, child, (dname, parent.ino)));
      ghost var other := old(child.parents)[(dname, parent.ino)];
      assert !DownOk(live, other, dname);
    } else {
      forall p, n | p in live && n in p.dentries ensures DownOk(live, p, n) {
        assert p != parent || n != dname ==> old(DownOk(live, p, n));
      }
      forall c, k | c in live && k in c.parents ensures UpOk(live, c, k) {
        assert c != child || k != (dname, parent.ino) ==> old(UpOk(live, c, k));
      }
    }
  }

  /** The links of all live inodes at some moment. */
  datatype Links = Links(down: map<Inode, map<string, Inode>>, up: map<Inode, map<(string, nat), Inode>>)

  ghost function Snapshot(live: set<Inode>): Links
    reads live`dentries, live`parents
  {
    Links(map x | x in live :: x.dentries, map x | x in live :: x.parents)
  }

  /** `m` is `m0` without some links; unless `all` may go, only links to `node` are gone. */
  ghost predicate Loses<K>(m: map<K, Inode>, m0: map<K, Inode>, node: Inode, all: bool) {
    && (forall k :: k in m ==> k in m0 && m[k] == m0[k])
    && (forall k :: k in m0 && !all && m0[k] != node ==> k in m)
  }

  /** Since snapshot `l`, links were only lost, and only those to or from `node`. */
  ghost predicate OnlyLoses(live: set<Inode>, node: Inode, l: Links)
    reads live`dentries, live`parents
  {
    && l.down.Keys == l.up.Keys == live
    && forall x :: x in live ==>
         Loses(x.dentries, l.down[x], node, x == node) && Loses(x.parents, l.up[x], node, x == node)
  }

  lemma LosesMore<K>(m: map<K, Inode>, m0: map<K, Inode>, node: Inode, all: bool, k: K)
    requires Loses(m, m0, node, all) && k in m && (all || m[k] == node)
    ensures Loses(m - {k}, m0, node, all)
  {
  }

  method CutLink(pin: Inode, dname: string, node: Inode, ghost live: set<Inode>, ghost l: Links)
    requires TwoWay(live) && OnlyLoses(live, node, l)
    requires pin in live && dname in pin.dentries && (pin == node || pin.dentries[dname] == node)
    modifies pin`dentries, pin.Entry(dname)`parents
    ensures TwoWay(live) && OnlyLoses(live, node, l)
    ensures pin.dentries == old(pin.dentries) - {dname}
    ensures
      var child := old(pin.Entry(dname));
      child.parents == old(pin.Entry(dname).parents) - {(dname, pin.ino)}
  {
    hide TwoWay, Loses;
    ghost var child := pin.dentries[dname];
    Mirrored(pin, dname, live);
    LosesMore(pin.dentries, l.down[pin], node, pin == node, dname);
    LosesMore(child.parents, l.up[child], node, child == node, (dname, pin.ino));
    RemoveDentry(pin, dname, live);
  }

  lemma Mirrored(p: Inode, n: string, live: set<Inode>)
    requires TwoWay(live) && p in live && n in p.dentries
    ensures DownOk(live, p, n)
  {
  }

  method CutParents(node: Inode, ghost live: set<Inode>, ghost l: Links)
    requires TwoWay(live) && node in live && OnlyLoses(live, node, l)
    modifies live`dentries, live`parents
    ensures TwoWay(live) && OnlyLoses(live, node, l) && node.parents == map[]
  {
    hide TwoWay, OnlyLoses;
    while node.parents != map[]
      invariant TwoWay(live) && OnlyLoses(live, node, l)
      decreases |node.parents|
    {
      var key :| key in node.parents;
      MirroredUp(node, key, live);
      CutLink(node.parents[key], key.0, node, live, l);
    }
  }

  method CutDentries(node: Inode, ghost live: set<Inode>, ghost l: Links)
    requires TwoWay(live) && node in live && OnlyLoses(live, node, l) && node.parents == map[]
    modifies live`dentries, live`parents
    ensures TwoWay(live) && OnlyLoses(live, node, l) && node.parents == map[] && node.dentries == map[]
  {
    hide TwoWay, OnlyLoses;
    while node.dentries != map[]
      invariant TwoWay(live) && OnlyLoses(live, node, l) && node.parents == map[]
      decreases |node.dentries|
    {
      var dname :| dname in node.dentries;
      Mirrored(node, dname, live);
      CutLink(node, dname, node, live, l);
    }
  }

  /** Cuts every link to and from `node`; the loops end because each removal takes the
      mirrored link away, too.  All other links stay. */
  method UnlinkInode(node: Inode, ghost live: set<Inode>)
    requires TwoWay(live) && node in live
    modifies live`dentries, live`parents, node`fds
    ensures TwoWay(live)
    ensures node.parents == map[] && node.dentries == map[] && node.fds == {}
    ensures OnlyLoses(live, node, old(Snapshot(live)))
  {
    hide TwoWay, OnlyLoses, Snapshot;
    ghost var l := Snapshot(live);
    LosesNothing(live, node);
    CutParents(node, live, l);
    CutDentries(node, live, l);
    node.fds := {};
  }

  lemma MirroredUp(c: Inode, k: (string, nat), live: set<Inode>)
    requires TwoWay(live) && c in live && k in c.parents
    ensures UpOk(live, c, k)
  {
  }

  lemma LosesNone<K>(m: map<K, Inode>, node: Inode)
    ensures Loses(m, m, node, false)
  {
  }

  lemma LosesBut<K>(m: map<K, Inode>, m': map<K, Inode>, m0: map<K, Inode>, node: Inode, k: K)
    requires Loses(m, m0, node, false) && m' == m[k := node]
    ensures Loses(m' - {k}, m0 - {k}, node, false)
  {
  }

  lemma LosesNothing(live: set<Inode>, node: Inode)
    ensures OnlyLoses(live, node, Snapshot(live))
  {
  }

  /** Once `node` has no links, no other live inode refers to it. */
  lemma NoLinks(node: Inode, live: set<Inode>, x: Inode)
    requires TwoWay(live) && node in live && node.parents == map[] && node.dentries == map[] && x in live
    ensures forall n :: n in x.dentries ==> x.dentries[n] != node
    ensures forall k :: k in x.parents ==> x.parents[k] != node
  {
    forall n | n in x.dentries ensures x.dentries[n] != node { assert DownOk(live, x, n); }
    forall k | k in x.parents ensures x.parents[k] != node { assert UpOk(live, x, k); }
  }

  lemma Unreferenced(node: Inode, live: set<Inode>)
    requires TwoWay(live) && node in live && node.parents == map[] && node.dentries == map[]
    ensures forall x :: x in live ==> node !in x.parents.Values && node !in x.dentries.Values
  {
    hide TwoWay;
    forall x | x in live ensures node !in x.parents.Values && node !in x.dentries.Values { NoLinks(node, live, x); }
  }

  lemma LosesAll(live: set<Inode>, node: Inode, l: Links)
    requires OnlyLoses(live, node, l)
    ensures forall x :: x in live && x != node ==> x in l.down && x in l.up
    ensures forall x :: x in live && x != node ==>
      Loses(x.dentries, l.down[x], node, false) && Loses(x.parents, l.up[x], node, false)
  {
    hide Loses;
  }

  ghost function LinkGraph(l: Links): Graph {
    map x | x in l.up :: l.up[x].Values
  }

  lemma SnapshotGraph(live: set<Inode>)
    ensures LinkGraph(Snapshot(live)) == ParentGraph(live)
  {
  }

  lemma LosesAt(live: set<Inode>, node: Inode, l: Links, x: Inode)
    requires OnlyLoses(live, node, l) && x in live && x != node
    ensures x in l.down && x in l.up
    ensures Loses(x.dentries, l.down[x], node, false) && Loses(x.parents, l.up[x], node, false)
  {
  }

  lemma LosesSubgraph(live: set<Inode>, node: Inode, l: Links)
    requires TwoWay(live) && OnlyLoses(live, node, l)
    ensures Acyclic(LinkGraph(l)) ==> Acyclic(ParentGraph(live))
  {
    hide TwoWay, Acyclic;
    var g, h := LinkGraph(l), ParentGraph(live);
    forall c | c in h ensures h[c] <= g[c] && h[c] <= h.Keys {
      forall p | p in h[c] ensures p in g[c] && p in live {
        var k :| k in c.parents && c.parents[k] == p;
        MirroredUp(c, k, live);
        assert l.up[c][k] == p;
      }
    }
    if Acyclic(g) { SubgraphAcyclic(g, h); }
  }

  /** What an entry placed in `parent` does to the parent links of `x`. */
  ghost function Placed(parent: Inode, dname: string, child: Inode, x: Inode): map<(string, nat), Inode>
    reads parent, x
  {
    var kept: map<(string, nat), Inode> :=
      if dname in parent.dentries && parent.dentries[dname] == x then x.parents - {(dname, parent.ino)} else x.parents;
    if x == child then kept[(dname, parent.ino) := parent] else kept
  }

  /** Links `child` into `parent`, and says what becomes of the graph: without a clash it
      stays acyclic exactly when `child` is not `parent` or one of its ancestors. */
  method Attach(parent: Inode, dname: string, child: Inode, ghost live: set<Inode>)
    requires TwoWay(live) && Acyclic(ParentGraph(live)) && parent in live && child in live
    modifies live`dentries, live`parents
    ensures TwoWay(live) <==> old(NoClash(parent, dname, child))
    ensures old(NoClash(parent, dname, child)) ==>
      (Acyclic(ParentGraph(live)) <==> !old(Above(ParentGraph(live), parent, child)))
    ensures forall x :: x in live ==>
      x.dentries == if x == parent then old(x.dentries)[dname := child] else old(x.dentries)
    ensures forall x :: x in live ==> x.parents == old(Placed(parent, dname, child, x))
    ensures child.parents == old(child.parents)[(dname, parent.ino) := parent]
  {
    hide TwoWay, Acyclic, Above, ParentGraph;
    ghost var g, up := ParentGraph(live), Snapshot(live).up;
    GraphClosed(live);
    GraphAt(live);
    if dname in parent.dentries { Mirrored(parent, dname, live); }
    AddDentry(parent, dname, child, live);
    if old(NoClash(parent, dname, child)) {
      GraphAt(live);
      ghost var h := ParentGraph(live);
      ghost var gone := if dname in old(parent.dentries) then {old(parent.dentries[dname])} else {};
      forall x | x in live
        ensures g[x] - {parent} <= h[x] <= if x == child then g[x] + {parent} else g[x]
        ensures x == child ==> parent in h[x]
      {
        AttachedParents(up[x], x.parents, (dname, parent.ino), parent, x in gone, x == child);
      }
      RehangAcyclic(g, h, child, parent);
    }
  }

  /** Another inode has an entry for `node` that `node` does not know under the number of
      that inode; the number of `node` itself does not matter. */
  ghost predicate Misplaced(live: set<Inode>, node: Inode)
    reads live`dentries, node`parents, (live - {node})`ino
  {
    exists p, n :: p in live && p != node && n in p.dentries && p.dentries[n] == node
                   && !((n, p.ino) in node.parents && node.parents[(n, p.ino)] == p)
  }

  lemma MisplacedBroken(live: set<Inode>, node: Inode)
    requires Misplaced(live, node)
    ensures !TwoWay(live)
  {
    var p, n :| p in live && p != node && n in p.dentries && p.dentries[n] == node
                && !((n, p.ino) in node.parents && node.parents[(n, p.ino)] == p);
    assert !DownOk(live, p, n);
  }

  /** `Attach`, with the entry that a clash leaves behind. */
  method AttachChild(parent: Inode, dname: string, child: Inode, ghost live: set<Inode>)
    requires TwoWay(live) && Acyclic(ParentGraph(live)) && parent in live && child in live
    modifies live`dentries, live`parents
    ensures TwoWay(live) <==> old(NoClash(parent, dname, child))
    ensures !old(NoClash(parent, dname, child)) ==> Misplaced(live, child)
    ensures old(NoClash(parent, dname, child)) ==>
      (Acyclic(ParentGraph(live)) <==> !old(Above(ParentGraph(live), parent, child)))
    ensures forall x :: x in live ==>
      x.dentries == if x == parent then old(x.dentries)[dname := child] else old(x.dentries)
    ensures forall x :: x in live ==> x.parents == old(Placed(parent, dname, child, x))
  {
    hide TwoWay, Acyclic, ParentGraph, Above, Placed;
    ghost var key, fine := (dname, parent.ino), NoClash(parent, dname, child);
    ghost var other := if fine then parent else child.parents[key];
    NotOwnParent(live, child);
    if !fine { MirroredUp(child, key, live); }
    Attach(parent, dname, child, live);
    assert !fine ==> other != child && other.dentries[dname] == child && child.parents[key] != other;
  }

  /** Moves an entry, and says what becomes of the two-way links and of the graph. */
  method MoveDentry(pin: Inode, dname: string, newpin: Inode, newdname: string, ghost live: set<Inode>)
    requires TwoWay(live) && Acyclic(ParentGraph(live)) && pin in live && newpin in live && dname in pin.dentries
    modifies live`dentries, live`parents
    ensures TwoWay(live) <==> old(NoClash(newpin, newdname, pin.dentries[dname]))
    ensures old(NoClash(newpin, newdname, pin.dentries[dname])) ==>
      (Acyclic(ParentGraph(live)) <==> !old(Above(ParentGraph(live), newpin, pin.dentries[dname])))
    ensures
      var node := old(pin.dentries[dname]);
      pin.dentries == (if pin == newpin then old(pin.dentries)[newdname := node] else old(pin.dentries)) - {dname}
    ensures pin != newpin ==> newpin.dentries == old(newpin.dentries)[newdname := old(pin.dentries[dname])]
    ensures
      var was := old(pin.dentries[dname].parents);
      old(pin.dentries[dname]).parents == was[(newdname, newpin.ino) := newpin] - {(dname, pin.ino)}
    ensures forall x :: x in live && x != old(pin.dentries[dname]) ==>
      x.parents == old(Placed(newpin, newdname, pin.dentries[dname], x))
    ensures forall x :: x in live && x != pin && x != newpin ==> x.dentries == old(x.dentries)
  {
    hide TwoWay, Acyclic, ParentGraph, Above, LinkGraph, DownOk, UpOk;
    ghost var node, l, fine := pin.dentries[dname], Snapshot(live), NoClash(newpin, newdname, pin.dentries[dname]);
    SnapshotGraph(live);
    SnapshotClosed(live);
    MirroredLink(pin, dname, live);
    if newdname in newpin.dentries { MirroredLink(newpin, newdname, live); }
    ShiftDentry(pin, dname, newpin, newdname, live);
    if fine { MovedGraph(live, l, node, newpin, (newdname, newpin.ino), (dname, pin.ino)); }
  }

  lemma MirroredLink(p: Inode, n: string, live: set<Inode>)
    requires TwoWay(live) && p in live && n in p.dentries
    ensures p.dentries[n] in live && (n, p.ino) in p.dentries[n].parents && p.dentries[n].parents[(n, p.ino)] == p
  {
    Mirrored(p, n, live);
  }

  /** The two steps of a move.  A clash leaves an entry that its child does not know. */
  method ShiftDentry(pin: Inode, dname: string, newpin: Inode, newdname: string, ghost live: set<Inode>)
    requires TwoWay(live) && pin in live && newpin in live && dname in pin.dentries
    modifies live`dentries, live`parents
    ensures TwoWay(live) <==> old(NoClash(newpin, newdname, pin.dentries[dname]))
    ensures
      var node := old(pin.dentries[dname]);
      pin.dentries == (if pin == newpin then old(pin.dentries)[newdname := node] else old(pin.dentries)) - {dname}
    ensures pin != newpin ==> newpin.dentries == old(newpin.dentries)[newdname := old(pin.dentries[dname])]
    ensures
      var was := old(pin.dentries[dname].parents);
      old(pin.dentries[dname]).parents == was[(newdname, newpin.ino) := newpin] - {(dname, pin.ino)}
    ensures forall x :: x in live && x != old(pin.dentries[dname]) ==>
      x.parents == old(Placed(newpin, newdname, pin.dentries[dname], x))
    ensures forall x :: x in live && x != pin && x != newpin ==> x.dentries == old(x.dentries)
  {
    hide TwoWay, Placed;
    var node := pin.dentries[dname];
    ghost var fine := NoClash(newpin, newdname, node);
    ghost var other := if fine then newpin else node.parents[(newdname, newpin.ino)];
    Mirrored(pin, dname, live);
    if !fine { MirroredUp(node, (newdname, newpin.ino), live); }
    AddDentry(newpin, newdname, node, live);
    RemoveDentry(pin, dname, live);
    if !fine {
      NotMirrored(live, if other == pin && dname == newdname then newpin else other, newdname);
    }
  }

  /** Every parent link of the snapshot stays inside it. */
  ghost predicate Closed(l: Links) {
    forall x, k :: x in l.up && k in l.up[x] ==> l.up[x][k] in l.up
  }

  lemma SnapshotClosed(live: set<Inode>)
    requires TwoWay(live)
    ensures Closed(Snapshot(live))
  {
    forall x, k | x in live && k in x.parents ensures x.parents[k] in live { MirroredUp(x, k, live); }
  }

  /** Since snapshot `l`, `node` was linked into `newpin` as `key` and lost the link `lost`,
      and other inodes lost at most the link `key`. */
  lemma MovedGraph(live: set<Inode>, l: Links, node: Inode, newpin: Inode, key: (string, nat), lost: (string, nat))
    requires l.up.Keys == live && Closed(l) && Acyclic(LinkGraph(l)) && node in live && newpin in live
    requires key in l.up[node] ==> l.up[node][key] == newpin
    requires key == lost ==> key in l.up[node]
    requires node.parents == l.up[node][key := newpin] - {lost}
    requires forall x :: x in live && x != node ==>
      x.parents == l.up[x] || (x.parents == l.up[x] - {key} && (key in l.up[x] ==> l.up[x][key] == newpin))
    ensures Acyclic(ParentGraph(live)) <==> !Above(LinkGraph(l), newpin, node)
  {
    hide Acyclic, Above;
    var g, h := LinkGraph(l), ParentGraph(live);
    forall x | x in live && x != node ensures g[x] - {newpin} <= h[x] <= g[x] {
      AttachedParents(l.up[x], x.parents, key, newpin, x.parents != l.up[x], false);
    }
    RenamedParents(l.up[node], node.parents, key, newpin, lost);
    RenamedAcyclic(g, h, node, newpin, key == lost);
  }

  lemma GraphAt(live: set<Inode>)
    ensures ParentGraph(live).Keys == live
    ensures forall x :: x in live ==> ParentGraph(live)[x] == x.parents.Values
  {
  }

  lemma AttachedParents<K>(m: map<K, Inode>, m': map<K, Inode>, key: K, parent: Inode, dropped: bool, child: bool)
    requires dropped || child ==> key in m ==> m[key] == parent
    requires
      var kept := if dropped then m - {key} else m;
      m' == if child then kept[key := parent] else kept
    ensures m.Values - {parent} <= m'.Values <= if child then m.Values + {parent} else m.Values
    ensures child ==> parent in m'.Values
  {
    var kept := if dropped then m - {key} else m;
    if dropped && key in m { ValuesRemoved(m, key, parent); }
    assert m - {key} == m || key in m;
    if child { ValuesUpdated(kept, key, parent); }
  }

  lemma RenamedParents<K>(m: map<K, Inode>, m': map<K, Inode>, key: K, parent: Inode, lost: K)
    requires m' == m[key := parent] - {lost}
    ensures m'.Values <= m.Values + {parent}
    ensures key != lost ==> parent in m'.Values
    ensures key == lost ==> m'.Values <= m.Values
  {
    if key != lost { assert key in m'; }
    forall x | x in m'.Values ensures x in m.Values || (x == parent && key != lost) {
      var i :| i in m' && m'[i] == x;
      if i != key { assert i in m; }
    }
  }

  /** A move keeps the graph acyclic exactly when `c` is not `p` or one of its ancestors;
      `same` says that the entry was moved onto itself. */
  lemma RenamedAcyclic(g: Graph, h: Graph, c: Inode, p: Inode, same: bool)
    requires Acyclic(g) && c in g && p in g && h.Keys == g.Keys
    requires forall x :: x in g ==> g[x] <= g.Keys
    requires forall x :: x in g && x != c ==> g[x] - {p} <= h[x] <= g[x]
    requires if same then h[c] <= g[c] && p in g[c] else p in h[c] && h[c] <= g[c] + {p}
    ensures Acyclic(h) <==> !Above(g, p, c)
  {
    hide Acyclic;
    if same {
      ParentNotBelow(g, c, p);
      SubgraphAcyclic(g, h);
    } else {
      RehangAcyclic(g, h, c, p);
    }
  }

  lemma NotOwnParent(live: set<Inode>, node: Inode)
    requires Acyclic(ParentGraph(live)) && node in live
    ensures node !in node.parents.Values
  {
    hide Acyclic;
    var g := ParentGraph(live);
    GraphAt(live);
    if node in node.parents.Values {
      AboveSelf(g, node);
      ParentNotBelow(g, node, node);
    }
  }

  lemma NotMirrored(live: set<Inode>, p: Inode, n: string)
    requires p in live && n in p.dentries && !DownOk(live, p, n)
    ensures !TwoWay(live)
  {
  }

  lemma ValuesRemoved<K>(m: map<K, Inode>, k: K, v: Inode)
    requires k in m && m[k] == v
    ensures m.Values - {v} <= (m - {k}).Values <= m.Values
  {
    forall x | x in m.Values - {v} ensures x in (m - {k}).Values {
      var i :| i in m && m[i] == x;
      assert i in m - {k};
    }
  }

  lemma ValuesUpdated<K>(m: map<K, Inode>, k: K, v: Inode)
    requires k in m ==> m[k] == v
    ensures m[k := v].Values == m.Values + {v}
  {
    assert k in m[k := v];
    forall x | x in m.Values ensures x in m[k := v].Values {
      var i :| i in m && m[i] == x;
      assert i in m[k := v];
    }
  }

  lemma GraphClosed(live: set<Inode>)
    requires TwoWay(live)
    ensures forall x :: x in live ==> ParentGraph(live)[x] <= live
  {
    forall x, p | x in live && p in ParentGraph(live)[x] ensures p in live {
      var k :| k in x.parents && x.parents[k] == p;
      MirroredUp(x, k, live);
    }
  }

  /** Walking `names` from `x` through the entries leads to `y`. */
  ghost predicate Resolves(live: set<Inode>, x: Inode, names: seq<string>, y: Inode)
    reads live`dentries
    decreases |names|
  {
    if names == [] then x == y
    else x in live && names[0] in x.dentries && Resolves(live, x.dentries[names[0]], names[1..], y)
  }

  lemma {:induction false} ResolvesSnoc(live: set<Inode>, x: Inode, names: seq<string>, y: Inode, n: string)
    requires Resolves(live, x, names, y) && y in live && n in y.dentries
    ensures Resolves(live, x, names + [n], y.dentries[n])
    decreases |names|
  {
    if names == [] {
      assert names + [n] == [n] && [n][1..] == [];
    } else {
      assert (names + [n])[1..] == names[1..] + [n];
      ResolvesSnoc(live, x.dentries[names[0]], names[1..], y, n);
    }
  }

  /** The path text: the base directory and then every name behind a slash. */
  function Render(basedir: string, names: seq<string>): string {
    if names == [] then basedir + "/"
    else Render(basedir, names[..|names| - 1]) + "/" + names[|names| - 1]
  }

  // ----- reading a path

  predicate Proper(name: string) {
    name != "" && '/' !in name
  }

  function NameEnd(s: string): (n: nat)
    requires s != "" && s[0] != '/'
    ensures 0 < n <= |s| && '/' !in s[..n] && (n < |s| ==> s[n] == '/')
  {
    if |s| == 1 || s[1] == '/' then 1 else 1 + NameEnd(s[1..])
  }

  /** The names in a path, read off its characters: whatever stands between slashes. */
  function Pieces(s: string): seq<string> {
    if s == "" then []
    else if s[0] == '/' then Pieces(s[1..])
    else [s[..NameEnd(s)]] + Pieces(s[NameEnd(s)..])
  }

  lemma NoSlash(s: string, n: nat)
    requires n <= |s| && '/' !in s[..n]
    ensures forall k :: 0 <= k < n ==> s[k] != '/'
  {
    forall k | 0 <= k < n ensures s[k] != '/' {
      assert s[k] == s[..n][k];
    }
  }

  lemma NameEndsAt(s: string, n: nat)
    requires s != "" && s[0] != '/' && n <= |s| && '/' !in s[..n] && (n < |s| ==> s[n] == '/')
    ensures NameEnd(s) == n
  {
    NoSlash(s, n);
    NoSlash(s, NameEnd(s));
  }

  /** A slash and a name add that name. */
  lemma {:induction false} PiecesSnoc(a: string, n: string)
    requires Proper(n)
    ensures Pieces(a + "/" + n) == Pieces(a) + [n]
    decreases |a|
  {
    var s := a + "/" + n;
    if a == "" {
      assert s[1..] == n;
      NameEndsAt(n, |n|);
      assert n[..|n|] == n && n[|n|..] == "";
    } else if a[0] == '/' {
      assert s[1..] == a[1..] + "/" + n;
      PiecesSnoc(a[1..], n);
    } else {
      var m := NameEnd(a);
      assert s[..m] == a[..m] && s[m..] == a[m..] + "/" + n;
      NameEndsAt(s, m);
      PiecesSnoc(a[m..], n);
    }
  }

  /** The text of a path starts with the base directory and a slash, and the rest reads back
      as its names. */
  lemma {:induction false} RenderReads(basedir: string, names: seq<string>)
    ensures
      var buf := Render(basedir, names);
      basedir + "/" <= buf
      && ((forall i :: 0 <= i < |names| ==> Proper(names[i])) ==> Pieces(buf[|basedir|..]) == names)
    decreases |names|
  {
    var buf := Render(basedir, names);
    if names == [] {
      assert buf[|basedir|..] == "/" && "/"[1..] == "";
    } else {
      var init, n := names[..|names| - 1], names[|names| - 1];
      var before := Render(basedir, init);
      RenderReads(basedir, init);
      assert buf == before + "/" + n && buf[|basedir|..] == before[|basedir|..] + "/" + n;
      if forall i :: 0 <= i < |names| ==> Proper(names[i]) {
        PiecesSnoc(before[|basedir|..], n);
        assert init + [n] == names;
      }
    }
  }

  /** File names are not empty and contain no slash. */
  ghost predicate ProperNames(live: set<Inode>)
    reads live`dentries
  {
    forall x, n :: x in live && n in x.dentries ==> Proper(n)
  }

  lemma {:induction false} ResolvesProper(live: set<Inode>, x: Inode, names: seq<string>, y: Inode)
    requires Resolves(live, x, names, y) && ProperNames(live)
    ensures forall i :: 0 <= i < |names| ==> Proper(names[i])
    decreases |names|
  {
    if names != [] {
      ResolvesProper(live, x.dentries[names[0]], names[1..], y);
      assert forall i :: 0 < i < |names| ==> names[i] == names[1..][i - 1];
    }
  }

  class Cache {
    const root: Inode
    var inodeMap: map<nat, Inode?>
    ghost var live: set<Inode>

    ghost predicate Valid()
      reads this, live`ino, live`dentries, live`parents
    {
      && root in live && root.ino == 1
      && TwoWay(live) && Acyclic(ParentGraph(live))
      && forall i :: i in inodeMap && inodeMap[i] != null ==> inodeMap[i] in live && inodeMap[i].ino == i
    }

    constructor ()
      ensures Valid() && fresh(root) && live == {root} && inodeMap == map[1 := root]
    {
      var r := new Inode(1);
      root := r;
      inodeMap := map[1 := r];
      live := {r};
      new;
      var g := ParentGraph(live);
      assert r.parents.Values == {};
      assert g == map[r := {}];
      assert Ranked(g, map[r := 0]);
    }

    /** Drops `node` from the cache; afterwards no live inode refers to it. */
    method RemoveInode(node: Inode)
      requires Valid() && node in live && node != root
      modifies `inodeMap, `live, live`dentries, live`parents, node`fds
      ensures Valid() && live == old(live) - {node} && inodeMap == old(inodeMap) - {node.ino}
      ensures forall x :: x in live ==> node !in x.parents.Values && node !in x.dentries.Values
      ensures forall x :: x in live ==>
        && Loses(x.dentries, old(x.dentries), node, false)
        && Loses(x.parents, old(x.parents), node, false)
    {
      hide TwoWay, Acyclic, Loses, ParentGraph, OnlyLoses;
      ghost var l, all := Snapshot(live), live;
      SnapshotGraph(live);
      UnlinkInode(node, live);
      LosesSubgraph(live, node, l);
      StillTwoWay(all, node);
      Unreferenced(node, live);
      LosesAll(live, node, l);
      inodeMap := inodeMap - {node.ino};
      live := live - {node};
    }

    /** A new inode enters the cache without links. */
    method NewInode(ino: nat) returns (node: Inode)
      requires Valid()
      modifies `live
      ensures Valid() && fresh(node) && live == old(live) + {node}
      ensures node.ino == ino && node.ref == 0 && node.fds == {} && node.parents == map[] && node.dentries == map[]
    {
      hide TwoWay, Acyclic, ParentGraph;
      ghost var all := live;
      node := new Inode(ino);
      live := live + {node};
      WithNewcomer(all, node);
    }

    /** The number of a cached inode may change without harm: it has no entries, the map
        does not list it, and it is not the root. */
    ghost predicate Unlisted(node: Inode)
      reads this, node
    {
      node.dentries == map[] && node != root && !(node.ino in inodeMap && inodeMap[node.ino] == node)
    }

    /** A lookup asks the file system for the inode number; `st` is None when that fails.  It
        finds the cached entry and takes over the number, or it caches a new inode, which
        for a hard link takes over the number's place in the map.  The cache stays valid
        exactly if the number of a cached entry is still the same or does not matter. */
    method Lookup(parent: Inode, dname: string, st: Option<nat>) returns (node: Inode?)
      requires Valid() && parent in live
      modifies `inodeMap, `live, live`ino, live`ref, live`dentries, live`parents
      ensures node == null <==> st.None?
      ensures st.None? ==> Valid() && live == old(live) && inodeMap == old(inodeMap)
      ensures st.Some? ==>
        node in live && dname in parent.dentries && parent.dentries[dname] == node && node.ino == st.value
      ensures st.Some? && dname in old(parent.dentries) ==>
        && node == old(parent.dentries[dname]) && live == old(live) && inodeMap == old(inodeMap)
        && node.ref == old(parent.dentries[dname].ref) + 1
        && (Valid() <==> old(parent.dentries[dname].ino) == st.value || old(Unlisted(parent.dentries[dname])))
      ensures st.Some? && dname !in old(parent.dentries) ==>
        && Valid() && fresh(node) && live == old(live) + {node} && node.ref == 1
        && inodeMap == old(inodeMap)[st.value := node]
        && node.parents == map[(dname, parent.ino) := parent] && node.dentries == map[]
      ensures forall x :: x in old(live) ==>
        && x.parents == old(x.parents)
        && x.dentries == if x == parent && st.Some? then old(x.dentries)[dname := node] else old(x.dentries)
      ensures forall x :: x in old(live) && x != node ==> x.ref == old(x.ref) && x.ino == old(x.ino)
    {
      hide TwoWay, Acyclic, ParentGraph, Above;
      if st.None? { return null; }
      if dname in parent.dentries {
        node := parent.dentries[dname];
        Mirrored(parent, dname, live);
        Renumber(node, st.value);
      } else {
        node := CacheNew(parent, dname, st.value);
      }
      node.ref := node.ref + 1;
    }

    method CacheNew(parent: Inode, dname: string, ino: nat) returns (node: Inode)
      requires Valid() && parent in live && dname !in parent.dentries
      modifies `inodeMap, `live, live`dentries, live`parents
      ensures Valid() && fresh(node) && live == old(live) + {node} && node.ref == 0 && node.ino == ino
      ensures inodeMap == old(inodeMap)[ino := node]
      ensures node.parents == map[(dname, parent.ino) := parent] && node.dentries == map[]
      ensures forall x :: x in old(live) ==>
        && x.parents == old(x.parents)
        && x.dentries == if x == parent then old(x.dentries)[dname := node] else old(x.dentries)
    {
      hide TwoWay, Acyclic, ParentGraph, Above;
      node := NewInode(ino);
      Childless(live, parent, node);
      Attach(parent, dname, node, live);
      inodeMap := inodeMap[ino := node];
    }

    /** Takes over the number that the file system reports. */
    method Renumber(node: Inode, ino: nat)
      requires node in live
      modifies node`ino
      ensures node.ino == ino
      ensures old(Valid()) ==> (Valid() <==> old(node.ino) == ino || old(Unlisted(node)))
    {
      hide Acyclic;
      ghost var was, valid := node.ino, Valid();
      node.ino := ino;
      if valid {
        if d :| d in node.dentries {
          ghost var child := node.dentries[d];
          assert old(DownOk(live, node, d)) && old(UpOk(live, child, (d, was)));
          if ino != was { assert !UpOk(live, child, (d, was)); }
        } else {
          assert node.dentries == map[];
          forall p, n | p in live && n in p.dentries ensures DownOk(live, p, n) { assert old(DownOk(live, p, n)); }
          forall c, k | c in live && k in c.parents ensures UpOk(live, c, k) { assert old(UpOk(live, c, k)); }
        }
      }
    }

    /** Caches a newly created file.  An inode that already has this number is reused after
        all its links are cut.  The graph stays acyclic exactly when the new child is not
        the parent itself.  If a forget left a null entry for the number, the source
        dereferences it; here nothing happens and the result is null. */
    method AddInode(parent: Inode, dname: string, ino: nat) returns (node: Inode?)
      requires Valid() && parent in live
      modifies `inodeMap, `live, live`dentries, live`parents, live`fds
      ensures node == null <==> ino in old(inodeMap) && old(inodeMap)[ino] == null
      ensures node == null ==>
        && Valid() && live == old(live) && inodeMap == old(inodeMap)
        && forall x :: x in live ==> x.fds == old(x.fds) && Same(x.ref, old(x.dentries), old(x.parents), x)
      ensures node != null && ino in old(inodeMap) ==> node == old(inodeMap)[ino] && live == old(live)
      ensures ino !in old(inodeMap) ==> fresh(node) && live == old(live) + {node} && node.ref == 0 && node.ino == ino
      ensures node != null ==>
        && node.fds == {} && (forall x :: x in old(live) && x != node ==> x.fds == old(x.fds))
        && inodeMap == old(inodeMap)[ino := node]
        && node in live && dname in parent.dentries && parent.dentries[dname] == node
        && node.parents == map[(dname, parent.ino) := parent]
        && (forall x :: x in old(live) && x != node && x != parent ==> Loses(x.dentries, old(x.dentries), node, false))
        && (node != parent ==>
              && node.dentries == map[]
              && Loses(parent.dentries - {dname}, old(parent.dentries) - {dname}, node, false))
        && TwoWay(live)
        && (Valid() <==> node != parent)
    {
      hide TwoWay, Acyclic, ParentGraph, Above, Loses;
      if ino in inodeMap && inodeMap[ino] == null { return null; }
      node := BareInode(ino);
      Childless(live, parent, node);
      ghost var mid := parent.dentries;
      Attach(parent, dname, node, live);
      if node != parent { LosesBut(mid, parent.dentries, old(parent.dentries), node, dname); }
    }

    /** The cached inode with this number after all its links are cut, or a new one. */
    method BareInode(ino: nat) returns (node: Inode)
      requires Valid() && (ino in inodeMap ==> inodeMap[ino] != null)
      modifies `inodeMap, `live, live`dentries, live`parents, live`fds
      ensures Valid()
      ensures ino in old(inodeMap) ==> node == old(inodeMap)[ino] && live == old(live)
      ensures ino !in old(inodeMap) ==> fresh(node) && live == old(live) + {node} && node.ref == 0 && node.ino == ino
      ensures node in live && inodeMap == old(inodeMap)[ino := node]
      ensures node.parents == map[] && node.dentries == map[] && node.fds == {}
      ensures forall x :: x in old(live) && x != node ==>
        x.fds == old(x.fds) && Loses(x.dentries, old(x.dentries), node, false)
    {
      hide TwoWay, Acyclic, ParentGraph, Loses, OnlyLoses;
      if ino in inodeMap {
        node := inodeMap[ino];
        ghost var l := Snapshot(live);
        SnapshotGraph(live);
        UnlinkInode(node, live);
        LosesSubgraph(live, node, l);
        LosesAll(live, node, l);
      } else {
        node := NewInode(ino);
        inodeMap := inodeMap[ino := node];
        forall x | x in old(live) ensures Loses(x.dentries, old(x.dentries), node, false) {
          LosesNone(x.dentries, node);
        }
      }
    }

    /** Drops an entry after the file or directory was removed. */
    method Unlink(pin: Inode, dname: string)
      requires Valid() && pin in live
      modifies live`dentries, live`parents
      ensures Valid()
      ensures forall x :: x in live ==> x.dentries == if x == pin then old(x.dentries) - {dname} else old(x.dentries)
      ensures forall x :: x in live ==>
        x.parents == if dname in old(pin.dentries) && x == old(pin.dentries[dname])
                     then old(x.parents) - {(dname, pin.ino)} else old(x.parents)
    {
      hide TwoWay, Acyclic, ParentGraph, Loses, OnlyLoses;
      ghost var l := Snapshot(live);
      SnapshotGraph(live);
      LosesNothing(live, pin);
      if dname in pin.dentries {
        Mirrored(pin, dname, live);
        CutLink(pin, dname, pin, live, l);
        LosesSubgraph(live, pin, l);
      }
    }

    /** Moves an entry.  The cache stays valid exactly when directory numbers do not clash
        and the entry is not moved below itself.  Renaming an entry onto itself loses it. */
    method Rename(pin: Inode, dname: string, newpin: Inode, newdname: string)
      requires Valid() && pin in live && newpin in live
      modifies live`dentries, live`parents
      ensures dname !in old(pin.dentries) ==>
        Valid() && forall x :: x in live ==> x.dentries == old(x.dentries) && x.parents == old(x.parents)
      ensures dname in old(pin.dentries) ==>
        var node := old(pin.dentries[dname]);
        && (Valid() <==> old(NoClash(newpin, newdname, pin.dentries[dname]))
                         && !old(Above(ParentGraph(live), newpin, pin.dentries[dname])))
        && pin.dentries == (if pin == newpin then old(pin.dentries)[newdname := node] else old(pin.dentries)) - {dname}
        && (pin != newpin ==> newpin.dentries == old(newpin.dentries)[newdname := node])
        && node.parents == old(pin.dentries[dname].parents)[(newdname, newpin.ino) := newpin] - {(dname, pin.ino)}
        && (forall x :: x in live && x != node ==> x.parents == old(Placed(newpin, newdname, pin.dentries[dname], x)))
      ensures forall x :: x in live && x != pin && x != newpin ==> x.dentries == old(x.dentries)
    {
      hide TwoWay, Acyclic, ParentGraph, Above, Placed, NoClash;
      if dname in pin.dentries { MoveDentry(pin, dname, newpin, newdname, live); }
    }

    /** Adds a hard link and takes over the number that the file system reports for the new
        name; if that fails, `st` is None and the number becomes 0.  The cache stays valid
        exactly when directory numbers do not clash, the inode is not the new parent or one
        of its ancestors, and its number is still the same or does not matter. */
    method Link(node: Inode, newpin: Inode, newdname: string, st: Option<nat>)
      requires Valid() && node in live && newpin in live
      modifies live`dentries, live`parents, node`ref, node`ino
      ensures node.ino == if st.Some? then st.value else 0
      ensures Valid() <==>
        && old(NoClash(newpin, newdname, node)) && !old(Above(ParentGraph(live), newpin, node))
        && (node.ino == old(node.ino) || old(Unlisted(node)))
      ensures node.ref == old(node.ref) + 1
      ensures forall x :: x in live ==>
        x.dentries == if x == newpin then old(x.dentries)[newdname := node] else old(x.dentries)
      ensures forall x :: x in live ==> x.parents == old(Placed(newpin, newdname, node, x))
    {
      hide TwoWay, Acyclic, ParentGraph, Above, Placed, NoClash, Misplaced;
      GraphAt(live);
      AboveSelf(ParentGraph(live), newpin);
      ghost var fine := NoClash(newpin, newdname, node) && !Above(ParentGraph(live), newpin, node);
      AttachChild(newpin, newdname, node, live);
      assert Valid() <==> fine;
      assert fine ==> (Unlisted(node) <==> old(Unlisted(node)));
      node.ref := node.ref + 1;
      Renumber(node, if st.Some? then st.value else 0);
      if Misplaced(live, node) { MisplacedBroken(live, node); }
    }

    /** Rebuilds the path of `node`.  When it succeeds, the text starts with the base
        directory, and walking from the root by what stands between its slashes leads back to
        `node`; it fails only if the climb ends at an inode that has no
        parent and is not the root. */
    method MakeInodePath(node: Inode, basedir: string) returns (ok: bool, buf: string)
      requires Valid() && node in live
      ensures ok ==> Names(buf, basedir, node)
      ensures ok ==> basedir + "/" <= buf
      ensures ok && ProperNames(live) ==> Resolves(live, root, Pieces(buf[|basedir|..]), node)
      ensures Strands(node, if ok then {root} else live - {root})
    {
      ghost var rank :| Ranked(ParentGraph(live), rank);
      ghost var names, chain;
      ok, buf, names, chain := ClimbPath(node, basedir, rank);
      if ok {
        RenderReads(basedir, names);
        if ProperNames(live) { ResolvesProper(live, root, names, node); }
      }
    }

    /** `buf` is the text of a path that leads from the root to `node`. */
    ghost predicate Names(buf: string, basedir: string, node: Inode)
      reads this, live`dentries
    {
      exists names :: buf == Render(basedir, names) && Resolves(live, root, names, node)
    }

    /** Some climb from `node` ends, without a parent to go on to, at one of `ends`. */
    ghost predicate Strands(node: Inode, ends: set<Inode>)
      reads this, live`parents
    {
      exists chain: seq<Inode> :: Climbs(ParentGraph(live), chain) && chain[0] == node
                      && chain[|chain| - 1] in ends && chain[|chain| - 1] in live && chain[|chain| - 1].parents == map[]
    }

    method ClimbPath(node: Inode, basedir: string, ghost rank: map<Inode, nat>)
      returns (ok: bool, buf: string, ghost names: seq<string>, ghost chain: seq<Inode>)
      requires root in live && root.ino == 1 && TwoWay(live) && Ranked(ParentGraph(live), rank) && node in live
      ensures ok ==> buf == Render(basedir, names) && Resolves(live, root, names, node)
      ensures Climbs(ParentGraph(live), chain) && chain[0] == node
      ensures chain[|chain| - 1].parents == map[] && (ok <==> chain[|chain| - 1] == root)
      decreases rank[node]
    {
      hide TwoWay;
      buf, names, chain := "", [], [node];
      if node.parents != map[] {
        var key :| key in node.parents;  // the source takes the first key; any will do
        var parent := node.parents[key];
        MirroredUp(node, key, live);
        assert parent in ParentGraph(live)[node];
        ok, buf, names, chain := ClimbPath(parent, basedir, rank);
        chain := [node] + chain;
        if !ok { return; }
        ResolvesSnoc(live, root, names, parent, key.0);
        buf := buf + "/";
        buf := buf + key.0;
        names := names + [key.0];
      } else {
        if node != root {
          ok := false;
          return;
        }
        assert node.ino == 1;
        buf := basedir;
        buf := buf + "/";
        ok := true;
      }
    }

    /** The kernel forgets `nlookup` references.  An unknown number leaves a null entry. */
    method Forget(ino: nat, nlookup: nat)
      requires Valid()
      modifies `inodeMap, `live, live`ref, live`fds, live`dentries, live`parents
      ensures Valid()
      ensures ino == 1 ==> inodeMap == old(inodeMap)
      ensures ino != 1 && (ino !in old(inodeMap) || old(inodeMap)[ino] == null) ==>
        inodeMap == old(inodeMap)[ino := null]
      ensures ino == 1 || ino !in old(inodeMap) || old(inodeMap)[ino] == null ==>
        live == old(live) && forall x :: x in live ==> Same(old(x.ref), old(x.dentries), old(x.parents), x)
      ensures ino != 1 && ino in old(inodeMap) && old(inodeMap)[ino] != null ==>
        var node := old(inodeMap)[ino];
        if old(node.ref) - nlookup <= 0 then
          && live == old(live) - {node} && inodeMap == old(inodeMap) - {ino}
          && (forall x :: x in live ==>
               && x.ref == old(x.ref)
               && Loses(x.dentries, old(x.dentries), node, false) && Loses(x.parents, old(x.parents), node, false)
               && node !in x.dentries.Values && node !in x.parents.Values)
        else
          && live == old(live) && inodeMap == old(inodeMap)
          && (forall x :: x in live ==>
               Same(if x == node then old(x.ref) - nlookup else old(x.ref), old(x.dentries), old(x.parents), x))
    {
      hide TwoWay, Acyclic, ParentGraph, Loses;
      if ino != 1 {
        if ino !in inodeMap { inodeMap := inodeMap[ino := null]; }
        var node := inodeMap[ino];
        if node != null {
          node.ref := node.ref - nlookup;
          if node.ref <= 0 { RemoveInode(node); }
        }
      }
    }
  }

  ghost predicate Same(ref: int, dentries: map<string, Inode>, parents: map<(string, nat), Inode>, x: Inode)
    reads x
  {
    x.ref == ref && x.dentries == dentries && x.parents == parents
  }

  lemma WithNewcomer(live: set<Inode>, node: Inode)
    requires TwoWay(live) && Acyclic(ParentGraph(live)) && node !in live && node.parents == map[]
      && node.dentries == map[]
    ensures TwoWay(live + {node}) && Acyclic(ParentGraph(live + {node}))
  {
    var all := live + {node};
    forall p, n | p in all && n in p.dentries ensures DownOk(all, p, n) { Mirrored(p, n, live); }
    forall c, k | c in all && k in c.parents ensures UpOk(all, c, k) { MirroredUp(c, k, live); }
    assert node.parents.Values == {};
    assert ParentGraph(all) == ParentGraph(live)[node := {}];
    AddNodeAcyclic(ParentGraph(live), node);
  }

  /** Nobody climbs to an inode without entries, except that inode itself. */
  lemma Childless(live: set<Inode>, p: Inode, node: Inode)
    requires TwoWay(live) && node in live && p in live && node.parents == map[] && node.dentries == map[]
    ensures Above(ParentGraph(live), p, node) <==> p == node
  {
    var g := ParentGraph(live);
    if p == node {
      AboveSelf(g, node);
    } else if Above(g, p, node) {
      var path :| Climbs(g, path) && path[0] == p && path[|path| - 1] == node;
      var x := path[|path| - 2];
      assert node in g[x];
      NoLinks(node, live, x);
      assert false;
    }
  }

  /** An inode without links can leave. */
  lemma StillTwoWay(live: set<Inode>, node: Inode)
    requires TwoWay(live) && node in live && node.parents == map[] && node.dentries == map[]
    ensures TwoWay(live - {node})
    ensures Acyclic(ParentGraph(live)) ==> Acyclic(ParentGraph(live - {node}))
  {
    var rest := live - {node};
    forall p, n | p in rest && n in p.dentries ensures DownOk(rest, p, n) { Mirrored(p, n, live); }
    forall c, k | c in rest && k in c.parents ensures UpOk(rest, c, k) { MirroredUp(c, k, live); }
    var g, h := ParentGraph(live), ParentGraph(rest);
    forall c | c in h ensures h[c] <= g[c] && h[c] <= h.Keys {
      forall p | p in h[c] ensures p in rest {
        var k :| k in c.parents && c.parents[k] == p;
        MirroredUp(c, k, live);
      }
    }
    if Acyclic(g) { SubgraphAcyclic(g, h); }
  }
}
