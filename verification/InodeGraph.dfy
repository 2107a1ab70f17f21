/** The cached inodes of fusetrace and the graph that their parent links form. */
module InodeGraph {

  /** `parents` is keyed by entry name and parent inode number. */
  class Inode {
    var ino: nat
    var ref: int
    var fds: set<int>
    var parents: map<(string, nat), Inode>
    var dentries: map<string, Inode>

    function Entry(dname: string): Inode
      reads this
      requires dname in dentries
    {
      dentries[dname]
    }

    constructor (ino: nat)
      ensures this.ino == ino && ref == 0 && fds == {} && parents == map[] && dentries == map[]
    {
      this.ino := ino;
      ref, fds, parents, dentries := 0, {}, map[], map[];
    }
  }

  /** The entry `n` of `p` is known to its child under the number of `p`. */
  ghost predicate DownOk(live: set<Inode>, p: Inode, n: string)
    reads live`ino, live`dentries, live`parents
    requires p in live && n in p.dentries
  {
    && p.dentries[n] in live
    && (n, p.ino) in p.dentries[n].parents && p.dentries[n].parents[(n, p.ino)] == p
  }

  /** The parent link `k` of `c` is an entry of that parent. */
  ghost predicate UpOk(live: set<Inode>, c: Inode, k: (string, nat))
    reads live`ino, live`dentries, live`parents
    requires c in live && k in c.parents
  {
    && c.parents[k] in live && c.parents[k].ino == k.1
    && k.0 in c.parents[k].dentries && c.parents[k].dentries[k.0] == c
  }

  /** Entries and parent links mirror each other. */
  ghost predicate TwoWay(live: set<Inode>)
    reads live`ino, live`dentries, live`parents
  {
    && (forall p, n {:trigger DownOk(live, p, n)} :: p in live && n in p.dentries ==> DownOk(live, p, n))
    && (forall c, k {:trigger UpOk(live, c, k)} :: c in live && k in c.parents ==> UpOk(live, c, k))
  }

  // ----- acyclicity

  /** From a child to its parents. */
  type Graph = map<Inode, set<Inode>>

  ghost function ParentGraph(live: set<Inode>): Graph
    reads live`parents
  {
    map c | c in live :: c.parents.Values
  }

  ghost predicate Ranked(g: Graph, older rank: map<Inode, nat>) {
    rank.Keys == g.Keys && forall c, p :: c in g && p in g[c] ==> p in g && rank[p] < rank[c]
  }

  ghost predicate Acyclic(g: Graph) {
    exists rank :: Ranked(g, rank)
  }

  ghost predicate Climbs(g: Graph, older path: seq<Inode>) {
    && |path| > 0
    && (forall i :: 0 <= i < |path| ==> path[i] in g)
    && (forall i :: 0 < i < |path| ==> path[i] in g[path[i - 1]])
  }

  /** `p` is `c` or one of its ancestors. */
  ghost predicate Above(g: Graph, c: Inode, p: Inode) {
    exists path :: Climbs(g, path) && path[0] == c && path[|path| - 1] == p
  }

  lemma {:induction false} ClimbLowersRank(g: Graph, rank: map<Inode, nat>, path: seq<Inode>)
    requires Ranked(g, rank) && Climbs(g, path)
    ensures rank[path[|path| - 1]] + |path| - 1 <= rank[path[0]]
    decreases |path|
  {
    if |path| > 1 {
      assert path[1] in g[path[0]];
      ClimbLowersRank(g, rank, path[1..]);
    }
  }

  /** No climb leads back to where it started. */
  lemma AcyclicNoCycle(g: Graph, path: seq<Inode>)
    requires Acyclic(g) && Climbs(g, path) && |path| > 1
    ensures path[0] != path[|path| - 1]
  {
    var rank :| Ranked(g, rank);
    ClimbLowersRank(g, rank, path);
  }

  lemma ParentNotBelow(g: Graph, c: Inode, p: Inode)
    requires Acyclic(g) && c in g && p in g && p in g[c]
    ensures !Above(g, p, c)
  {
    if Above(g, p, c) {
      var path :| Climbs(g, path) && path[0] == p && path[|path| - 1] == c;
      AcyclicNoCycle(g, path + [p]);
      assert false;
    }
  }

  lemma AboveSelf(g: Graph, c: Inode)
    requires c in g
    ensures Above(g, c, c)
  {
    assert Climbs(g, [c]);
  }

  lemma AboveFromChild(g: Graph, x: Inode, c: Inode, p: Inode)
    requires Above(g, c, p) && x in g && c in g[x]
    ensures Above(g, x, p)
  {
    var path :| Climbs(g, path) && path[0] == c && path[|path| - 1] == p;
    assert Climbs(g, [x] + path);
  }

  /** Hanging `c` under `p` keeps the graph acyclic exactly when `c` is not `p` or one of
      its ancestors. */
  lemma AddEdgeAcyclic(g: Graph, c: Inode, p: Inode)
    requires Acyclic(g) && c in g && p in g
    ensures Acyclic(g[c := g[c] + {p}]) <==> !Above(g, p, c)
  {
    var h := g[c := g[c] + {p}];
    if Above(g, p, c) {
      if Acyclic(h) {
        var rank :| Ranked(h, rank);
        var path :| Climbs(g, path) && path[0] == p && path[|path| - 1] == c;
        assert Climbs(h, path);
        assert p in h[c] && rank[p] < rank[c];
        ClimbLowersRank(h, rank, path);
        assert false;
      }
    } else {
      AddEdgeRank(g, c, p);
    }
  }

  lemma AddEdgeRank(g: Graph, c: Inode, p: Inode)
    requires Acyclic(g) && c in g && p in g && !Above(g, p, c)
    ensures Acyclic(g[c := g[c] + {p}])
  {
    hide Above;
    var h := g[c := g[c] + {p}];
    var rank :| Ranked(g, rank);
    var below := set x | x in g && Above(g, x, c);
    var lifted := map x | x in g :: if x in below then rank[x] + rank[p] + 1 else rank[x];
    AboveSelf(g, c);
    forall x, y | x in h && y in h[x] ensures y in h && lifted[y] < lifted[x] {
      if !(x == c && y == p) {
        assert y in g[x];
        if y in below { AboveFromChild(g, x, y, c); }
      }
    }
    assert Ranked(h, lifted);
  }

  /** The same, if along the way some edges up to `p` and some edges out of `c` are
      dropped. */
  lemma RehangAcyclic(g: Graph, h: Graph, c: Inode, p: Inode)
    requires Acyclic(g) && c in g && p in g && h.Keys == g.Keys
    requires forall x :: x in g ==> g[x] <= g.Keys
    requires forall x :: x in g ==> h[x] <= if x == c then g[x] + {p} else g[x]
    requires forall x :: x in g && x != c ==> g[x] - {p} <= h[x]
    requires p in h[c]
    ensures Acyclic(h) <==> !Above(g, p, c)
  {
    hide Acyclic, Above;
    if Above(g, p, c) {
      RehangCycle(g, h, c, p);
    } else {
      AddEdgeAcyclic(g, c, p);
      SubgraphAcyclic(g[c := g[c] + {p}], h);
    }
  }

  lemma RehangCycle(g: Graph, h: Graph, c: Inode, p: Inode)
    requires Acyclic(g) && c in g && h.Keys == g.Keys && p in h[c] && Above(g, p, c)
    requires forall x :: x in g && x != c ==> g[x] - {p} <= h[x]
    ensures !Acyclic(h)
  {
    var path :| Climbs(g, path) && path[0] == p && path[|path| - 1] == c;
    SurvivingClimb(g, h, c, p, path);
    if Acyclic(h) { ParentNotBelow(h, c, p); }
  }

  /** A climb from `p` to `c` takes no edge back to `p` and none out of `c`. */
  lemma SurvivingClimb(g: Graph, h: Graph, c: Inode, p: Inode, path: seq<Inode>)
    requires Acyclic(g) && h.Keys == g.Keys && Climbs(g, path) && path[0] == p && path[|path| - 1] == c
    requires forall x :: x in g && x != c ==> g[x] - {p} <= h[x]
    ensures Climbs(h, path)
  {
    forall i | 0 < i < |path| ensures path[i] in h[path[i - 1]] {
      AcyclicNoCycle(g, path[..i + 1]);
      AcyclicNoCycle(g, path[i - 1..]);
    }
  }

  /** Dropping nodes and edges cannot create a cycle. */
  lemma SubgraphAcyclic(g: Graph, h: Graph)
    requires Acyclic(g) && h.Keys <= g.Keys
    requires forall c :: c in h ==> h[c] <= g[c] && h[c] <= h.Keys
    ensures Acyclic(h)
  {
    var rank :| Ranked(g, rank);
    var cut := map x | x in h :: rank[x];
    assert Ranked(h, cut);
  }

  /** A new node without links is harmless. */
  lemma AddNodeAcyclic(g: Graph, x: Inode)
    requires Acyclic(g) && x !in g
    ensures Acyclic(g[x := {}])
  {
    var rank :| Ranked(g, rank);
    assert Ranked(g[x := {}], rank[x := 0]);
  }
}
