/** `callers`: a pruned breadth-first walk that finds exactly bounded reachability. */
module Callers {
  import opened TemporalGraph
  import opened Wrappers
  import opened SymbolKeys
  import GraphRefinement

  datatype CallerRow = CallerRow(caller: string, targetFile: Option<Value>, targetStart: Option<Value>,
                                 targetEnd: Option<Value>, targetKind: Option<Value>)

  /** What the two one-hop queries return, rows in whatever order the database gives. */
  datatype View = View(callersOneHop: string -> seq<CallerRow>, definesAt: string -> seq<string>)

  predicate Resolved(g: Graph, id: NodeId) {
    id in g.nodes && id.tag == Symbol && UnresolvedP !in g.nodes[id].props && g.nodes[id].life.Live()
  }

  predicate LiveFile(g: Graph, id: NodeId) {
    id in g.nodes && id.tag == File && g.nodes[id].life.Live()
  }

  function RowAt(g: Graph, e: EdgeId): CallerRow
    requires e.dst in g.nodes
  {
    var s := g.nodes[e.dst];
    CallerRow(e.src.key, Prop(s, FileP), Prop(s, StartP), Prop(s, EndP), Prop(s, KindP))
  }

  /** A live file has a CALLS or REFERENCES edge, dead or alive, to a live symbol of that name. */
  predicate CallMatch(g: Graph, name: string, e: EdgeId) {
    && e in g.edges && (e.etype == Calls || e.etype == References)
    && LiveFile(g, e.src) && Resolved(g, e.dst) && Prop(g.nodes[e.dst], NameP) == Some(Text(name))
  }

  /** A live file has a DEFINES edge to a live symbol with that non-empty name. */
  predicate DefineMatch(g: Graph, file: string, name: string, e: EdgeId) {
    && e in g.edges && e.etype == Defines && e.src == FileNode(file)
    && LiveFile(g, e.src) && Resolved(g, e.dst) && Prop(g.nodes[e.dst], NameP) == Some(Text(name)) && name != ""
  }

  /** The view that the graph gives when no result limit cuts it short. */
  ghost predicate Shows(v: View, g: Graph) {
    && (forall name, row :: row in v.callersOneHop(name) <==> exists e :: CallMatch(g, name, e) && row == RowAt(g, e))
    && (forall file, name :: name in v.definesAt(file) <==> exists e :: DefineMatch(g, file, name, e))
  }

  // ---------------------------------------------------------------- reachability

  predicate CallsName(v: View, file: string, name: string) {
    exists i :: 0 <= i < |v.callersOneHop(name)| && v.callersOneHop(name)[i].caller == file
  }

  /** `name` is `start`, or is defined by a file that calls, `hops` alternations back. */
  ghost predicate NameAfter(v: View, start: string, name: string, hops: nat)
    decreases hops, 0
  {
    if hops == 0 then name == start
    else exists file :: CallerAfter(v, start, file, hops - 1) && name in v.definesAt(file)
  }

  /** `file` calls a name that lies `hops` alternations from `start`. */
  ghost predicate CallerAfter(v: View, start: string, file: string, hops: nat)
    decreases hops, 1
  {
    exists name :: NameAfter(v, start, name, hops) && CallsName(v, file, name)
  }

  /** A caller within `depth` alternations. */
  ghost predicate CallerWithin(v: View, start: string, file: string, depth: nat) {
    exists h :: 0 <= h < depth && CallerAfter(v, start, file, h)
  }

  /** A live symbol of that name that is no placeholder. */
  predicate Names(g: Graph, key: string, name: string) {
    && SymbolNode(key) in g.nodes && g.nodes[SymbolNode(key)].life.Live()
    && UnresolvedP !in g.nodes[SymbolNode(key)].props && Prop(g.nodes[SymbolNode(key)], NameP) == Some(Text(name))
  }

  predicate Alive(g: Graph, file: string) {
    FileNode(file) in g.nodes && g.nodes[FileNode(file)].life.Live()
  }

  /** In the graph: the file of that key is alive and has a CALLS or a REFERENCES edge to a live, resolved symbol of the
      name. */
  lemma CallsNameInGraph(v: View, g: Graph, file: string, name: string)
    requires Shows(v, g)
    ensures CallsName(v, file, name) <==>
      Alive(g, file) && exists t, key ::
        t in {Calls, References} && EdgeId(t, FileNode(file), SymbolNode(key)) in g.edges && Names(g, key, name)
  {
    if CallsName(v, file, name) {
      var i :| 0 <= i < |v.callersOneHop(name)| && v.callersOneHop(name)[i].caller == file;
      var row := v.callersOneHop(name)[i];
      assert row in v.callersOneHop(name);
      var e :| CallMatch(g, name, e) && row == RowAt(g, e);
      assert e == EdgeId(e.etype, FileNode(file), SymbolNode(e.dst.key)) && Names(g, e.dst.key, name);
    }
    if Alive(g, file) {
      forall t, key |
        t in {Calls, References} && EdgeId(t, FileNode(file), SymbolNode(key)) in g.edges && Names(g, key, name)
        ensures CallsName(v, file, name)
      {
        CallIsShown(v, g, file, name, EdgeId(t, FileNode(file), SymbolNode(key)));
      }
    }
  }

  lemma CallIsShown(v: View, g: Graph, file: string, name: string, e: EdgeId)
    requires Shows(v, g) && CallMatch(g, name, e) && e.src.key == file
    ensures CallsName(v, file, name)
  {
    assert RowAt(g, e) in v.callersOneHop(name);
  }

  /** The row of a call carries the file and the coordinates of the declaration that the called symbol has. */
  lemma RowTells(g: Graph, last: GraphRefinement.History, name: string, e: EdgeId)
    requires CallMatch(g, name, e) && FileScoped(e.dst.key) && GraphRefinement.SymbolAgrees(g, last, e.dst.key)
    ensures
      var file := Owner(e.dst.key);
      && GraphRefinement.Keeps(last, e.dst.key)
      && var s := GraphRefinement.Declaration(last[file], e.dst.key);
      && s.name == name
      && RowAt(g, e) == CallerRow(e.src.key, Some(Text(file)), Some(Number(s.startLine)), Some(Number(s.endLine)),
                                  Some(Text(s.kind)))
  {
  }

  /** In the graph: the file of that key is alive and has a DEFINES edge to a live, resolved symbol of the name, which
      is not empty. */
  lemma DefinesInGraph(v: View, g: Graph, file: string, name: string)
    requires Shows(v, g)
    ensures name in v.definesAt(file) <==>
      name != "" && Alive(g, file) && exists key :: DefinesEdge(file, key) in g.edges && Names(g, key, name)
  {
    if name in v.definesAt(file) {
      var e :| DefineMatch(g, file, name, e);
      assert e == DefinesEdge(file, e.dst.key);
    }
    if name != "" && Alive(g, file) {
      forall key | DefinesEdge(file, key) in g.edges && Names(g, key, name)
        ensures name in v.definesAt(file)
      {
        assert DefineMatch(g, file, name, DefinesEdge(file, key));
      }
    }
  }

  /** A walk along edges of the graph: a call of `start`, a definition in the calling file,
      a call of that, and so on. */
  ghost predicate Trail(g: Graph, start: string, names: seq<string>, calls: seq<EdgeId>, defines: seq<EdgeId>) {
    && |names| == |calls| == |defines| + 1 && names[0] == start
    && (forall i :: 0 <= i < |calls| ==> CallMatch(g, names[i], calls[i]))
    && (forall i :: 0 <= i < |defines| ==> DefineMatch(g, calls[i].src.key, names[i + 1], defines[i]))
  }

  lemma TrailGrows(g: Graph, start: string, names: seq<string>, calls: seq<EdgeId>, defines: seq<EdgeId>,
                   name: string, call: EdgeId, define: EdgeId)
    requires Trail(g, start, names, calls, defines)
    requires DefineMatch(g, calls[|calls| - 1].src.key, name, define) && CallMatch(g, name, call)
    ensures Trail(g, start, names + [name], calls + [call], defines + [define])
  {
  }

  lemma CallOf(v: View, g: Graph, file: string, name: string) returns (call: EdgeId)
    requires Shows(v, g) && CallsName(v, file, name)
    ensures CallMatch(g, name, call) && call.src.key == file
  {
    CallsNameInGraph(v, g, file, name);
    var t, key :|
      t in {Calls, References} && EdgeId(t, FileNode(file), SymbolNode(key)) in g.edges && Names(g, key, name);
    call := EdgeId(t, FileNode(file), SymbolNode(key));
  }

  lemma DefineOf(v: View, g: Graph, file: string, name: string) returns (define: EdgeId)
    requires Shows(v, g) && name in v.definesAt(file)
    ensures DefineMatch(g, file, name, define)
  {
    DefinesInGraph(v, g, file, name);
    var key :| DefinesEdge(file, key) in g.edges && Names(g, key, name);
    define := DefinesEdge(file, key);
  }

  /** One hop back from a caller that is not the nearest. */
  lemma HopBack(v: View, start: string, name: string, h: nat) returns (back: string)
    requires NameAfter(v, start, name, h) && h > 0
    ensures CallerAfter(v, start, back, h - 1) && name in v.definesAt(back)
  {
    back :| CallerAfter(v, start, back, h - 1) && name in v.definesAt(back);
  }

  lemma ShortTrail(g: Graph, start: string, call: EdgeId)
    requires CallMatch(g, start, call)
    ensures Trail(g, start, [start], [call], [])
  {
  }

  lemma {:induction false} CallerHasTrail(v: View, g: Graph, start: string, file: string, h: nat)
      returns (names: seq<string>, calls: seq<EdgeId>, defines: seq<EdgeId>)
    requires Shows(v, g) && CallerAfter(v, start, file, h)
    ensures Trail(g, start, names, calls, defines) && |calls| == h + 1 && calls[h].src.key == file
    decreases h
  {
    var name :| NameAfter(v, start, name, h) && CallsName(v, file, name);
    var call := CallOf(v, g, file, name);
    if h == 0 {
      ShortTrail(g, start, call);
      names, calls, defines := [name], [call], [];
    } else {
      var back := HopBack(v, start, name, h);
      var define := DefineOf(v, g, back, name);
      names, calls, defines := CallerHasTrail(v, g, start, back, h - 1);
      TrailGrows(g, start, names, calls, defines, name, call, define);
      names, calls, defines := names + [name], calls + [call], defines + [define];
    }
  }

  lemma {:induction false} TrailHasCaller(v: View, g: Graph, start: string, names: seq<string>, calls: seq<EdgeId>,
                                          defines: seq<EdgeId>)
    requires Shows(v, g) && Trail(g, start, names, calls, defines)
    ensures CallerAfter(v, start, calls[|calls| - 1].src.key, |calls| - 1)
    decreases |calls|
  {
    var h := |calls| - 1;
    if h > 0 {
      TrailHasCaller(v, g, start, names[..h], calls[..h], defines[..h - 1]);
      assert DefineMatch(g, calls[h - 1].src.key, names[h], defines[h - 1]);
      DefinesInGraph(v, g, calls[h - 1].src.key, names[h]);
    }
    assert NameAfter(v, start, names[h], h);
    CallIsShown(v, g, calls[h].src.key, names[h], calls[h]);
  }

  ghost predicate TrailWithin(g: Graph, start: string, file: string, depth: nat) {
    exists names: seq<string>, calls: seq<EdgeId>, defines: seq<EdgeId> ::
      Trail(g, start, names, calls, defines) && |calls| <= depth && calls[|calls| - 1].src.key == file
  }

  /** The callers within a depth are the ends of the graph's walks of at most that many calls. */
  lemma CallersAreTrails(v: View, g: Graph, start: string, file: string, depth: nat)
    requires Shows(v, g)
    ensures CallerWithin(v, start, file, depth) <==> TrailWithin(g, start, file, depth)
  {
    if CallerWithin(v, start, file, depth) {
      var h :| 0 <= h < depth && CallerAfter(v, start, file, h);
      var names, calls, defines := CallerHasTrail(v, g, start, file, h);
    }
    if TrailWithin(g, start, file, depth) {
      var names: seq<string>, calls: seq<EdgeId>, defines: seq<EdgeId> :|
        Trail(g, start, names, calls, defines) && |calls| <= depth && calls[|calls| - 1].src.key == file;
      TrailHasCaller(v, g, start, names, calls, defines);
    }
  }

  // ---------------------------------------------------------------- the walk's invariants

  /** Every caller of a seen name is a seen caller. */
  ghost predicate CallersSeen(v: View, names: set<string>, callers: set<string>) {
    forall n, f :: n in names && CallsName(v, f, n) ==> f in callers
  }

  /** Every name that a seen caller defines is seen or waiting. */
  ghost predicate DefinesSeen(v: View, callers: set<string>, names: set<string>, waiting: seq<string>) {
    forall f, n :: f in callers && n in v.definesAt(f) ==> n in names || n in waiting
  }

  /** What was seen was reached within `h` hops. */
  ghost predicate Reached(v: View, start: string, callers: set<string>, h: nat) {
    forall f :: f in callers ==> CallerWithin(v, start, f, h)
  }

  /** Before hop `h` nothing nearer is missing. */
  ghost predicate Complete(v: View, start: string, callers: set<string>, names: set<string>, waiting: seq<string>,
                           h: nat) {
    && (forall f :: CallerWithin(v, start, f, h) ==> f in callers)
    && (h == 0 ==> start in waiting)
    && CallersSeen(v, names, callers) && DefinesSeen(v, callers, names, waiting)
  }

  /** Every row is one that the query returned for some name. */
  ghost predicate Genuine(v: View, rows: seq<CallerRow>) {
    forall row :: row in rows ==> Returned(v, row)
  }

  ghost predicate Returned(v: View, row: CallerRow) {
    exists name :: row in v.callersOneHop(name)
  }

  predicate CallersDistinct(rows: seq<CallerRow>, callers: set<string>) {
    && (forall i, j :: 0 <= i < j < |rows| ==> rows[i].caller != rows[j].caller)
    && (forall f :: f in callers ==> exists i :: 0 <= i < |rows| && rows[i].caller == f)
    && (forall i :: 0 <= i < |rows| ==> rows[i].caller in callers)
  }

  /** Names at distance `h` are all known before hop `h`. */
  lemma FrontierKnown(v: View, start: string, callers: set<string>, names: set<string>, waiting: seq<string>, h: nat,
                      n: string)
    requires Complete(v, start, callers, names, waiting, h) && NameAfter(v, start, n, h)
    ensures n in names || n in waiting
  {
    if h > 0 {
      var f :| CallerAfter(v, start, f, h - 1) && n in v.definesAt(f);
      assert CallerWithin(v, start, f, h);
    }
  }

  /** A hop that has worked off the frontier has found every caller one hop further. */
  lemma HopCompletes(v: View, start: string, callers: set<string>, names: set<string>, waiting: seq<string>, h: nat,
                     callers': set<string>, names': set<string>, next: seq<string>)
    requires Complete(v, start, callers, names, waiting, h)
    requires callers <= callers' && names <= names' && (forall n :: n in waiting ==> n in names')
    requires CallersSeen(v, names', callers') && DefinesSeen(v, callers', names', next)
    ensures Complete(v, start, callers', names', next, h + 1)
  {
    forall f | CallerWithin(v, start, f, h + 1)
      ensures f in callers'
    {
      var i :| 0 <= i < h + 1 && CallerAfter(v, start, f, i);
      if i == h {
        var n :| NameAfter(v, start, n, h) && CallsName(v, f, n);
        FrontierKnown(v, start, callers, names, waiting, h, n);
      } else {
        assert CallerWithin(v, start, f, h);
      }
    }
  }

  /** When a hop finds nothing new, nothing is left to find at any distance. */
  lemma {:induction false} NothingFurther(v: View, start: string, callers: set<string>, names: set<string>, h: nat,
                                          k: nat)
    requires Complete(v, start, callers, names, [], h) && h >= 1
    ensures forall f :: CallerAfter(v, start, f, k) ==> f in callers
  {
    forall f | CallerAfter(v, start, f, k)
      ensures f in callers
    {
      if k < h {
        assert CallerWithin(v, start, f, h);
      } else {
        var n :| NameAfter(v, start, n, k) && CallsName(v, f, n);
        var back :| CallerAfter(v, start, back, k - 1) && n in v.definesAt(back);
        NothingFurther(v, start, callers, names, h, k - 1);
      }
    }
  }

  lemma NothingLeft(v: View, start: string, callers: set<string>, names: set<string>, h: nat)
    requires Complete(v, start, callers, names, [], h) && h >= 1
    ensures forall f, k: nat :: CallerAfter(v, start, f, k) ==> f in callers
  {
    forall f, k: nat | CallerAfter(v, start, f, k)
      ensures f in callers
    {
      NothingFurther(v, start, callers, names, h, k);
    }
  }

  function Clamped(depth: int): (d: nat)
    ensures 1 <= d <= 3 && (1 <= depth <= 3 ==> d == depth) && (depth < 1 ==> d == 1) && (depth > 3 ==> d == 3)
  {
    if depth < 1 then 1 else if depth > 3 then 3 else depth
  }

  /** What has been found so far, as rows and as a set. */
  ghost predicate Found(v: View, start: string, callers: set<string>, out: seq<CallerRow>, h: nat) {
    Reached(v, start, callers, h) && CallersDistinct(out, callers) && Genuine(v, out)
  }

  lemma RowAdded(rows: seq<CallerRow>, callers: set<string>, row: CallerRow)
    requires CallersDistinct(rows, callers) && row.caller !in callers
    ensures CallersDistinct(rows + [row], callers + {row.caller})
  {
    var rows' := rows + [row];
    forall f | f in callers + {row.caller}
      ensures exists i :: 0 <= i < |rows'| && rows'[i].caller == f
    {
      if f in callers {
        var i :| 0 <= i < |rows| && rows[i].caller == f;
        assert rows'[i].caller == f;
      } else {
        assert rows'[|rows|].caller == f;
      }
    }
  }

  lemma NextFrontier(v: View, start: string, ring: seq<string>, hop: nat)
    requires forall f :: f in ring ==> CallerAfter(v, start, f, hop)
    ensures forall n :: n in AllDefines(v, ring) ==> NameAfter(v, start, n, hop + 1)
  {
  }

  /** Add the callers of one name that were not seen before. */
  method VisitName(v: View, name: string, callers0: set<string>, out0: seq<CallerRow>, ghost start: string,
                   ghost hop: nat)
    returns (callers: set<string>, out: seq<CallerRow>, ring: seq<string>)
    requires Found(v, start, callers0, out0, hop + 1) && NameAfter(v, start, name, hop)
    ensures callers0 <= callers && Found(v, start, callers, out, hop + 1)
    ensures forall f :: CallsName(v, f, name) ==> f in callers
    ensures forall f :: f in callers <==> f in callers0 || f in ring
    ensures forall f :: f in ring ==> CallerAfter(v, start, f, hop)
  {
    callers, out, ring := callers0, out0, [];
    var rows := v.callersOneHop(name);
    for j := 0 to |rows|
      invariant callers0 <= callers && Found(v, start, callers, out, hop + 1)
      invariant forall k :: 0 <= k < j ==> rows[k].caller in callers
      invariant forall f :: f in callers <==> f in callers0 || f in ring
      invariant forall f :: f in ring ==> CallerAfter(v, start, f, hop)
    {
      var caller := rows[j].caller;
      if caller !in callers {
        assert CallsName(v, caller, name);
        assert CallerAfter(v, start, caller, hop);
        assert Returned(v, rows[j]);
        RowAdded(out, callers, rows[j]);
        callers, out, ring := callers + {caller}, out + [rows[j]], ring + [caller];
      }
    }
  }

  /** Work off one frontier. */
  method VisitFrontier(v: View, frontier: seq<string>, callers0: set<string>, names0: set<string>, out0: seq<CallerRow>,
                       ghost start: string, ghost hop: nat)
    returns (callers: set<string>, names: set<string>, out: seq<CallerRow>, ring: seq<string>)
    requires Found(v, start, callers0, out0, hop + 1) && CallersSeen(v, names0, callers0)
    requires forall n :: n in frontier ==> NameAfter(v, start, n, hop)
    ensures callers0 <= callers && Found(v, start, callers, out, hop + 1)
    ensures names == names0 + (set n | n in frontier) && CallersSeen(v, names, callers)
    ensures forall f :: f in callers <==> f in callers0 || f in ring
    ensures forall f :: f in ring ==> CallerAfter(v, start, f, hop)
  {
    callers, names, out, ring := callers0, names0, out0, [];
    for i := 0 to |frontier|
      invariant callers0 <= callers && Found(v, start, callers, out, hop + 1)
      invariant names == names0 + (set n | n in frontier[..i]) && CallersSeen(v, names, callers)
      invariant forall f :: f in callers <==> f in callers0 || f in ring
      invariant forall f :: f in ring ==> CallerAfter(v, start, f, hop)
    {
      assert frontier[..i + 1] == frontier[..i] + [frontier[i]];
      if frontier[i] !in names {
        var more;
        callers, out, more := VisitName(v, frontier[i], callers, out, start, hop);
        names, ring := names + {frontier[i]}, ring + more;
      }
    }
    assert frontier[..|frontier|] == frontier;
  }

  /** One row for each file within the clamped depth, and no other row. */
  method FindCallers(v: View, start: string, depth: int) returns (out: seq<CallerRow>)
    ensures forall i, j :: 0 <= i < j < |out| ==> out[i].caller != out[j].caller
    ensures forall f :: (exists i :: 0 <= i < |out| && out[i].caller == f) <==>
      CallerWithin(v, start, f, Clamped(depth))
    ensures Genuine(v, out)
  {
    var d := Clamped(depth);
    var callers, names := {}, {};
    out := [];
    var frontier := [start];
    for hop := 0 to d
      invariant Complete(v, start, callers, names, frontier, hop)
      invariant Found(v, start, callers, out, hop)
      invariant forall n :: n in frontier ==> NameAfter(v, start, n, hop)
    {
      var callers1, names1, ring;
      callers1, names1, out, ring := VisitFrontier(v, frontier, callers, names, out, start, hop);
      HopCompletes(v, start, callers, names, frontier, hop, callers1, names1, AllDefines(v, ring));
      callers, names := callers1, names1;
      if hop + 1 >= d || ring == [] {
        if ring == [] {
          NothingLeft(v, start, callers, names, hop + 1);
        }
        assert forall f :: CallerWithin(v, start, f, d) <==> f in callers;
        return;
      }
      NextFrontier(v, start, ring, hop);
      frontier := DefinedBy(v, ring);
    }
  }

  method DefinedBy(v: View, ring: seq<string>) returns (names: seq<string>)
    ensures names == AllDefines(v, ring)
  {
    names := [];
    for i := 0 to |ring|
      invariant names == AllDefines(v, ring[..i])
    {
      assert ring[..i + 1][..i] == ring[..i];
      names := names + v.definesAt(ring[i]);
    }
    assert ring[..|ring|] == ring;
  }

  function AllDefines(v: View, files: seq<string>): (names: seq<string>)
    ensures forall n :: n in names <==> exists f :: f in files && n in v.definesAt(f)
  {
    if files == [] then []
    else AllDefines(v, files[..|files| - 1]) + v.definesAt(files[|files| - 1])
  }
}
