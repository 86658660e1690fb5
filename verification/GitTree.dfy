/** Nested git trees built from flat path -> blob entries, and flattened again. */
module GitTree {
  import opened Wrappers

  datatype Tree<B> = Blob(blob: B) | Dir(children: map<string, Tree<B>>)

  // ---------------------------------------------------------------- paths

  /** Everything in front of the first slash. */
  function Head(path: string): (h: string)
    ensures h <= path && '/' !in h
    ensures h == path <==> '/' !in path
    ensures h != path ==> path[|h|] == '/'
  {
    if path == "" || path[0] == '/' then ""
    else
      assert path == [path[0]] + path[1..];
      [path[0]] + Head(path[1..])
  }

  /** Everything behind the first slash. */
  function Rest(path: string): string
    requires '/' in path
  {
    path[|Head(path)| + 1..]
  }

  lemma {:induction false} HeadOfJoined(name: string, rest: string)
    requires '/' !in name
    ensures Head(name + "/" + rest) == name && '/' in name + "/" + rest && Rest(name + "/" + rest) == rest
  {
    var path := name + "/" + rest;
    assert path[|name|] == '/';
    if name != "" {
      assert path[1..] == name[1..] + "/" + rest;
      HeadOfJoined(name[1..], rest);
      assert name == [name[0]] + name[1..];
    }
  }

  lemma JoinedAgain(path: string)
    requires '/' in path
    ensures path == Head(path) + "/" + Rest(path)
  {
    CutApart(path, |Head(path)|);
  }

  lemma CutApart(path: string, k: nat)
    requires k < |path|
    ensures path == path[..k] + [path[k]] + path[k + 1..]
  {
  }

  /** No empty component. */
  predicate WellFormed(path: string)
    decreases |path|
  {
    path != "" && ('/' in path ==> Head(path) != "" && WellFormed(Rest(path)))
  }

  /** No path lies below another, so that no name is both a blob and a directory. */
  ghost predicate PrefixFree<B>(entries: map<string, B>) {
    forall p, q :: p in entries && q in entries ==> !(p + "/" <= q)
  }

  ghost predicate Good<B>(entries: map<string, B>) {
    PrefixFree(entries) && forall p :: p in entries ==> WellFormed(p)
  }

  // ---------------------------------------------------------------- building

  /** The entries below one directory, relative to it. */
  function Below<B>(entries: map<string, B>, name: string): map<string, B> {
    var paths := set p | p in entries && '/' in p && Head(p) == name :: Rest(p);
    map r | r in paths && name + "/" + r in entries :: entries[name + "/" + r]
  }

  lemma BelowAt<B>(entries: map<string, B>, name: string, r: string)
    requires '/' !in name
    ensures r in Below(entries, name) <==> name + "/" + r in entries
    ensures r in Below(entries, name) ==> Below(entries, name)[r] == entries[name + "/" + r]
  {
    HeadOfJoined(name, r);
    if name + "/" + r in entries {
      var p := name + "/" + r;
      assert p in entries && '/' in p && Head(p) == name && Rest(p) == r;
    }
  }

  ghost function Longest<B>(entries: map<string, B>): (n: nat)
    ensures forall p :: p in entries ==> |p| <= n
    ensures entries != map[] ==> exists p :: p in entries && |p| == n
    decreases |entries|
  {
    if entries == map[] then 0
    else
      var p :| p in entries;
      var others := entries - {p};
      assert forall q :: q in entries ==> q == p || q in others;
      var n := Longest(others);
      if others == map[] || |p| >= n then
        assert |p| >= n ==> forall q :: q in entries ==> |q| <= |p|;
        |p|
      else n
  }

  lemma BelowIsShorter<B>(entries: map<string, B>, name: string)
    requires '/' !in name && entries != map[]
    ensures Below(entries, name) == map[] || Longest(Below(entries, name)) < Longest(entries)
  {
    var sub := Below(entries, name);
    if sub != map[] {
      var r :| r in sub && |r| == Longest(sub);
      BelowAt(entries, name, r);
    }
  }

  /** The names directly inside a directory. */
  function Tops<B>(entries: map<string, B>): set<string> {
    set p | p in entries :: Head(p)
  }

  lemma TopsHaveNoSlash<B>(entries: map<string, B>)
    ensures forall n :: n in Tops(entries) ==> '/' !in n
    ensures forall n :: n in Tops(entries) && n !in entries ==> Below(entries, n) != map[]
  {
    forall n | n in Tops(entries) && n !in entries
      ensures Below(entries, n) != map[]
    {
      var p :| p in entries && Head(p) == n;
      JoinedAgain(p);
      BelowAt(entries, n, Rest(p));
    }
  }

  /** The tree object that is made of flat entries. */
  function Build<B>(entries: map<string, B>): Tree<B>
    decreases Longest(entries)
  {
    TopsHaveNoSlash(entries);
    Dir(map n | n in Tops(entries) ::
      if n in entries then Blob(entries[n])
      else
        BelowIsShorter(entries, n);
        Build(Below(entries, n)))
  }

  // ---------------------------------------------------------------- flattening

  /** All blob paths of a tree, as a recursive listing prints them. */
  function Paths<B>(t: Tree<B>): set<string> {
    match t
    case Blob(_) => {}
    case Dir(children) =>
      (set n | n in children && children[n].Blob? :: n)
      + (set n, r | n in children && r in Paths(children[n]) :: n + "/" + r)
  }

  function Find<B>(t: Tree<B>, path: string): Option<B>
    decreases t
  {
    if t.Blob? then None
    else if '/' !in path then
      if path in t.children && t.children[path].Blob? then Some(t.children[path].blob) else None
    else if Head(path) in t.children then Find(t.children[Head(path)], Rest(path))
    else None
  }

  /** Names carry no slash. */
  ghost predicate Plain<B>(t: Tree<B>)
    decreases t
  {
    t.Dir? ==> forall n :: n in t.children ==> '/' !in n && Plain(t.children[n])
  }

  lemma {:induction false} PathsAreFound<B>(t: Tree<B>, path: string)
    requires Plain(t)
    ensures path in Paths(t) <==> Find(t, path).Some?
    decreases t
  {
    if t.Dir? {
      forall n | n in t.children
        ensures path == n ==> '/' !in path
        ensures forall r :: path == n + "/" + r ==> '/' in path && Head(path) == n && Rest(path) == r
      {
        forall r | path == n + "/" + r
          ensures '/' in path && Head(path) == n && Rest(path) == r
        {
          HeadOfJoined(n, r);
        }
      }
      if '/' in path {
        JoinedAgain(path);
        if Head(path) in t.children {
          PathsAreFound(t.children[Head(path)], Rest(path));
        }
      }
    }
  }

  /** What `ls-tree -r` reads back. */
  function Flatten<B>(t: Tree<B>): map<string, B>
  {
    map p | p in Paths(t) && Find(t, p).Some? :: Find(t, p).value
  }

  // ---------------------------------------------------------------- round trips

  function Entry<B>(entries: map<string, B>, path: string): Option<B> {
    if path in entries then Some(entries[path]) else None
  }

  lemma BelowIsPrefixFree<B>(entries: map<string, B>, name: string)
    requires '/' !in name && PrefixFree(entries)
    ensures PrefixFree(Below(entries, name))
  {
    forall p, q | p in Below(entries, name) && q in Below(entries, name)
      ensures !(p + "/" <= q)
    {
      BelowAt(entries, name, p);
      BelowAt(entries, name, q);
      PrefixUnder(name + "/", p + "/", q);
      assert name + "/" + p + "/" == name + "/" + (p + "/");
    }
  }

  lemma PrefixUnder(dir: string, p: string, q: string)
    ensures p <= q ==> dir + p <= dir + q
  {
  }

  lemma BuiltIsPlain<B>(entries: map<string, B>)
    ensures Build(entries).Dir? && Plain(Build(entries))
    decreases Longest(entries)
  {
    TopsHaveNoSlash(entries);
    forall n | n in Tops(entries) && n !in entries
      ensures Plain(Build(Below(entries, n)))
    {
      BelowIsShorter(entries, n);
      BuiltIsPlain(Below(entries, n));
    }
  }

  /** The nested tree holds exactly the flat entries. */
  lemma {:induction false} FindInBuilt<B>(entries: map<string, B>, path: string)
    requires PrefixFree(entries)
    ensures Find(Build(entries), path) == Entry(entries, path)
    decreases |path|
  {
    TopsHaveNoSlash(entries);
    var n := Head(path);
    if '/' !in path {
      assert path in entries ==> Head(path) in Tops(entries);
    } else {
      JoinedAgain(path);
      assert path in entries ==> n in Tops(entries);
      if n in entries {
        assert n + "/" <= path by {
          assert path == (n + "/") + Rest(path);
        }
      } else if n in Tops(entries) {
        BelowIsPrefixFree(entries, n);
        FindInBuilt(Below(entries, n), Rest(path));
        BelowAt(entries, n, Rest(path));
      }
    }
  }

  /** Listing a built tree gives the entries back. */
  lemma FlattenUndoesBuild<B>(entries: map<string, B>)
    requires PrefixFree(entries)
    ensures Flatten(Build(entries)) == entries
  {
    var t := Build(entries);
    BuiltIsPlain(entries);
    forall p
      ensures p in Flatten(t) <==> p in entries
      ensures p in entries ==> Flatten(t)[p] == entries[p]
    {
      FindInBuilt(entries, p);
      PathsAreFound(t, p);
    }
  }

  /** No directory is empty: git stores no others. */
  ghost predicate Canonical<B>(t: Tree<B>)
    decreases t
  {
    t.Dir? ==> forall n :: n in t.children ==>
      '/' !in n && Canonical(t.children[n]) && (t.children[n].Dir? ==> t.children[n].children != map[])
  }

  lemma {:induction false} CanonicalIsPlain<B>(t: Tree<B>)
    requires Canonical(t)
    ensures Plain(t)
    decreases t
  {
    if t.Dir? {
      forall n | n in t.children
        ensures Plain(t.children[n])
      {
        CanonicalIsPlain(t.children[n]);
      }
    }
  }

  lemma {:induction false} HasAPath<B>(t: Tree<B>)
    requires Canonical(t) && t.Dir? && t.children != map[]
    ensures Paths(t) != {}
    decreases t
  {
    var n :| n in t.children;
    if t.children[n].Blob? {
      assert n in Paths(t);
    } else {
      HasAPath(t.children[n]);
      var r :| r in Paths(t.children[n]);
      assert n + "/" + r in Paths(t);
    }
  }

  lemma FlatAt<B>(t: Tree<B>, p: string)
    requires Canonical(t)
    ensures Entry(Flatten(t), p) == Find(t, p)
  {
    CanonicalIsPlain(t);
    PathsAreFound(t, p);
  }

  lemma BelowFlat<B>(t: Tree<B>, n: string)
    requires Canonical(t) && t.Dir? && n in t.children && t.children[n].Dir?
    ensures Below(Flatten(t), n) == Flatten(t.children[n])
  {
    forall r
      ensures Entry(Below(Flatten(t), n), r) == Entry(Flatten(t.children[n]), r)
    {
      BelowAt(Flatten(t), n, r);
      HeadOfJoined(n, r);
      FlatAt(t, n + "/" + r);
      FlatAt(t.children[n], r);
    }
    SameEntries(Below(Flatten(t), n), Flatten(t.children[n]));
  }

  lemma SameEntries<B>(a: map<string, B>, b: map<string, B>)
    requires forall p :: Entry(a, p) == Entry(b, p)
    ensures a == b
  {
    forall p
      ensures p in a <==> p in b
      ensures p in a && p in b ==> a[p] == b[p]
    {
      assert Entry(a, p) == Entry(b, p);
    }
  }

  lemma TopsOfFlat<B>(t: Tree<B>)
    requires Canonical(t) && t.Dir?
    ensures Tops(Flatten(t)) == t.children.Keys
  {
    forall n | n in t.children
      ensures n in Tops(Flatten(t))
    {
      if t.children[n].Blob? {
        FlatAt(t, n);
        assert Head(n) == n;
      } else {
        HasAPath(t.children[n]);
        var r :| r in Paths(t.children[n]);
        FlatAt(t, n + "/" + r);
        HeadOfJoined(n, r);
        CanonicalIsPlain(t.children[n]);
        PathsAreFound(t.children[n], r);
        assert n + "/" + r in Flatten(t);
      }
    }
    forall n | n in Tops(Flatten(t))
      ensures n in t.children
    {
      var p :| p in Flatten(t) && Head(p) == n;
      FlatAt(t, p);
    }
  }

  /** Building from the listing of a tree gives the tree back. */
  lemma {:induction false} BuildUndoesFlatten<B>(t: Tree<B>)
    requires Canonical(t) && t.Dir?
    ensures Build(Flatten(t)) == t
    decreases t
  {
    var flat := Flatten(t);
    TopsOfFlat(t);
    TopsHaveNoSlash(flat);
    forall n | n in t.children
      ensures n in Build(flat).children && Build(flat).children[n] == t.children[n]
    {
      FlatAt(t, n);
      if t.children[n].Dir? {
        BelowFlat(t, n);
        BuildUndoesFlatten(t.children[n]);
      }
    }
    assert Build(flat).children == t.children;
  }

  // ---------------------------------------------------------------- the algorithm

  /** `grouped` holds the entries that lie in directories, each directory's relative to it. */
  ghost predicate Grouped<B>(grouped: map<string, map<string, B>>, entries: map<string, B>) {
    && grouped.Keys == Dirs(entries)
    && forall n :: n in grouped ==> grouped[n] == Below(entries, n)
  }

  function Dirs<B>(entries: map<string, B>): set<string> {
    set p | p in entries && '/' in p :: Head(p)
  }

  function Leaves<B>(entries: map<string, B>): map<string, B> {
    map p | p in entries && '/' !in p :: entries[p]
  }

  lemma BelowGrows<B>(entries: map<string, B>, p: string, b: B, n: string)
    requires '/' !in n && '/' in p
    ensures Below(entries[p := b], n) == if n == Head(p) then Below(entries, n)[Rest(p) := b] else Below(entries, n)
  {
    var after := if n == Head(p) then Below(entries, n)[Rest(p) := b] else Below(entries, n);
    forall r
      ensures Entry(Below(entries[p := b], n), r) == Entry(after, r)
    {
      BelowAt(entries, n, r);
      BelowAt(entries[p := b], n, r);
      HeadOfJoined(n, r);
      JoinedAgain(p);
    }
    SameEntries(Below(entries[p := b], n), after);
  }

  lemma NothingBelow<B>(entries: map<string, B>, n: string)
    requires '/' !in n && n !in Dirs(entries)
    ensures Below(entries, n) == map[]
  {
    forall r
      ensures Entry(Below(entries, n), r) == None
    {
      BelowAt(entries, n, r);
      HeadOfJoined(n, r);
    }
    SameEntries(Below(entries, n), map[]);
  }

  lemma GroupedStep<B>(grouped: map<string, map<string, B>>, entries: map<string, B>, p: string, b: B)
    requires Grouped(grouped, entries) && '/' in p
    ensures
      var before := if Head(p) in grouped then grouped[Head(p)] else map[];
      Grouped(grouped[Head(p) := before[Rest(p) := b]], entries[p := b])
  {
    var before := if Head(p) in grouped then grouped[Head(p)] else map[];
    var next := grouped[Head(p) := before[Rest(p) := b]];
    if Head(p) !in grouped {
      NothingBelow(entries, Head(p));
    }
    DirsGrow(entries, p, b);
    forall n | n in next
      ensures next[n] == Below(entries[p := b], n)
    {
      DirsArePlain(entries);
      BelowGrows(entries, p, b, n);
    }
  }

  lemma DirsArePlain<B>(entries: map<string, B>)
    ensures forall n :: n in Dirs(entries) ==> '/' !in n
  {
  }

  lemma DirsGrow<B>(entries: map<string, B>, p: string, b: B)
    ensures Dirs(entries[p := b]) == if '/' in p then Dirs(entries) + {Head(p)} else Dirs(entries)
  {
    var after := entries[p := b];
    forall n | n in Dirs(entries)
      ensures n in Dirs(after)
    {
      var q :| q in entries && '/' in q && Head(q) == n;
      assert q in after;
    }
    if '/' in p {
      assert p in after && Head(p) in Dirs(after);
    }
  }

  lemma LeafStep<B>(grouped: map<string, map<string, B>>, entries: map<string, B>, p: string, b: B)
    requires Grouped(grouped, entries) && '/' !in p
    ensures Grouped(grouped, entries[p := b])
  {
    DirsGrow(entries, p, b);
    DirsArePlain(entries);
    forall n | n in grouped
      ensures Below(entries[p := b], n) == Below(entries, n)
    {
      forall r
        ensures Entry(Below(entries[p := b], n), r) == Entry(Below(entries, n), r)
      {
        BelowAt(entries, n, r);
        BelowAt(entries[p := b], n, r);
        HeadOfJoined(n, r);
      }
      SameEntries(Below(entries[p := b], n), Below(entries, n));
    }
  }

  lemma BelowIsGood<B>(entries: map<string, B>, name: string)
    requires '/' !in name && Good(entries)
    ensures Good(Below(entries, name))
  {
    BelowIsPrefixFree(entries, name);
    forall r | r in Below(entries, name)
      ensures WellFormed(r)
    {
      BelowAt(entries, name, r);
      HeadOfJoined(name, r);
      assert WellFormed(name + "/" + r);
    }
  }

  /** Directories and leaves together are all names, and never the same name. */
  lemma NamesSplit<B>(entries: map<string, B>)
    requires PrefixFree(entries)
    ensures Tops(entries) == Leaves(entries).Keys + Dirs(entries)
    ensures forall n :: n in Dirs(entries) ==> '/' !in n && n !in entries
  {
    forall p | p in entries
      ensures '/' !in p ==> Head(p) == p && p in Leaves(entries)
      ensures '/' in p ==> Head(p) in Dirs(entries) && Head(p) !in entries
    {
      if '/' in p {
        JoinedAgain(p);
        assert Head(p) + "/" <= p by {
          assert p == (Head(p) + "/") + Rest(p);
        }
      }
    }
    assert forall n :: n in Leaves(entries) ==> Head(n) == n;
  }

  method GroupEntries<B>(entries: map<string, B>) returns (leaves: map<string, B>, grouped: map<string, map<string, B>>)
    requires Good(entries)
    ensures leaves == Leaves(entries) && Grouped(grouped, entries)
  {
    leaves, grouped := map[], map[];
    ghost var taken: map<string, B> := map[];
    var todo := entries.Keys;
    while todo != {}
      invariant todo <= entries.Keys && taken == entries - todo
      invariant leaves == Leaves(taken) && Grouped(grouped, taken)
      decreases todo
    {
      var p :| p in todo;
      if '/' !in p {
        LeafStep(grouped, taken, p, entries[p]);
        leaves := leaves[p := entries[p]];
      } else {
        GroupedStep(grouped, taken, p, entries[p]);
        var before := if Head(p) in grouped then grouped[Head(p)] else map[];
        grouped := grouped[Head(p) := before[Rest(p) := entries[p]]];
      }
      taken := taken[p := entries[p]];
      todo := todo - {p};
    }
    assert taken == entries;
  }

  lemma BuiltChildren<B>(entries: map<string, B>)
    requires PrefixFree(entries)
    ensures Build(entries).Dir? && Build(entries).children.Keys == Leaves(entries).Keys + Dirs(entries)
    ensures forall n :: n in Leaves(entries) ==> Build(entries).children[n] == Blob(entries[n])
    ensures forall n :: n in Dirs(entries) ==> Build(entries).children[n] == Build(Below(entries, n))
    ensures forall n :: n in Dirs(entries) ==> Below(entries, n) != map[]
  {
    NamesSplit(entries);
    TopsHaveNoSlash(entries);
  }

  function Blobs<B>(leaves: map<string, B>): map<string, Tree<B>> {
    map n | n in leaves :: Blob(leaves[n])
  }

  lemma GroupsShrink<B>(entries: map<string, B>, grouped: map<string, map<string, B>>)
    requires Good(entries) && Grouped(grouped, entries)
    ensures forall n :: n in grouped ==> Good(grouped[n]) && Longest(grouped[n]) < Longest(entries)
  {
    NamesSplit(entries);
    BuiltChildren(entries);
    forall n | n in grouped
      ensures Good(grouped[n]) && Longest(grouped[n]) < Longest(entries)
    {
      BelowIsGood(entries, n);
      BelowIsShorter(entries, n);
      assert entries != map[];
    }
  }

  /** The finished children, named by what the grouping holds. */
  lemma BuiltFromGroups<B>(entries: map<string, B>, leaves: map<string, B>, grouped: map<string, map<string, B>>)
    requires PrefixFree(entries) && leaves == Leaves(entries) && Grouped(grouped, entries)
    ensures
      var want := Build(entries).children;
      && grouped.Keys <= want.Keys && Blobs(leaves) == want - grouped.Keys
      && (forall n :: n in grouped ==> want[n] == Build(grouped[n]))
  {
    BuiltChildren(entries);
    NamesSplit(entries);
  }

  /** Group the entries by their first component, build the subtrees, put them
      beside the blobs. */
  method BuildTree<B>(entries: map<string, B>) returns (t: Tree<B>)
    requires Good(entries)
    ensures t == Build(entries)
    decreases Longest(entries), 1, 0
  {
    var leaves, grouped := GroupEntries(entries);
    BuiltFromGroups(entries, leaves, grouped);
    GroupsShrink(entries, grouped);
    ghost var want := Build(entries);
    var children := AddDirs(Longest(entries), Blobs(leaves), grouped, want.children);
    t := Dir(children);
  }

  /** `t` is what the smaller `entries` are to become. */
  ghost predicate Pending<B>(entries: map<string, B>, t: Tree<B>, bound: nat) {
    Good(entries) && Longest(entries) < bound && t == Build(entries)
  }

  /** All groups are pending, and everything else is there. */
  ghost predicate Remaining<B>(blobs: map<string, Tree<B>>, grouped: map<string, map<string, B>>,
                               want: map<string, Tree<B>>, bound: nat) {
    && grouped.Keys <= want.Keys && blobs == want - grouped.Keys
    && forall n :: n in grouped ==> Pending(grouped[n], want[n], bound)
  }

  lemma OneFewer<B>(blobs: map<string, Tree<B>>, grouped: map<string, map<string, B>>, want: map<string, Tree<B>>,
                    bound: nat, n: string)
    requires Remaining(blobs, grouped, want, bound) && n in grouped
    ensures Remaining(blobs[n := want[n]], grouped - {n}, want, bound) && |grouped - {n}| < |grouped|
  {
    KeysFewer(grouped, n);
    PutBack(blobs, grouped.Keys, (grouped - {n}).Keys, want, n);
  }

  lemma KeysFewer<A>(m: map<string, A>, n: string)
    requires n in m
    ensures (m - {n}).Keys == m.Keys - {n} && |m - {n}| < |m|
  {
    assert |m - {n}| == |(m - {n}).Keys| && |m| == |m.Keys|;
  }

  lemma PutBack<A>(some: map<string, A>, open: set<string>, left: set<string>, want: map<string, A>, n: string)
    requires open <= want.Keys && some == want - open && n in open && left == open - {n}
    ensures some[n := want[n]] == want - left
  {
    assert some[n := want[n]].Keys == want.Keys - left;
  }

  method AddDirs<B>(ghost bound: nat, blobs: map<string, Tree<B>>, grouped: map<string, map<string, B>>,
                    ghost want: map<string, Tree<B>>)
    returns (children: map<string, Tree<B>>)
    requires Remaining(blobs, grouped, want, bound)
    ensures children == want
    decreases bound, 0, |grouped|
  {
    if grouped == map[] {
      return blobs;
    }
    var n :| n in grouped;
    var sub := BuildOne(bound, grouped[n], want[n]);
    OneFewer(blobs, grouped, want, bound, n);
    children := AddDirs(bound, blobs[n := sub], grouped - {n}, want);
  }

  method BuildOne<B>(ghost bound: nat, entries: map<string, B>, ghost t: Tree<B>) returns (sub: Tree<B>)
    requires Pending(entries, t, bound)
    ensures sub == t
    decreases bound, 0, 0
  {
    sub := BuildTree(entries);
  }
}
