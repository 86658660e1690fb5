/** Where the graph stops following the last extractions, and exactly when. */
module GraphLimits {
  import opened Wrappers
  import opened Extraction
  import opened SymbolKeys
  import opened TemporalGraph
  import opened GraphIngest
  import opened GraphRows
  import opened GraphRefinement

  /** `definitions` can show that the file defines the key. */
  predicate Visible(g: Graph, path: string, key: string) {
    && DefinesEdge(path, key) in g.edges
    && LiveNode(g, FileNode(path)) && LiveNode(g, SymbolNode(key))
    && UnresolvedP !in g.nodes[SymbolNode(key)].props
  }

  lemma VisibleIsMatched(g: Graph, path: string, key: string, name: string)
    requires Prop(if SymbolNode(key) in g.nodes then g.nodes[SymbolNode(key)] else BARE, NameP) == Some(Text(name))
    ensures Visible(g, path, key) <==> DefinesEdge(path, key) in Definitions(g, name)
  {
  }

  /** Deleting one file hides a symbol of another file exactly when the deleted
      file was ever linked to the same node: the shared `partial::` nodes. */
  lemma DeleteHidesSibling(g: Graph, gone: string, path: string, key: string, h: Head, now: int)
    requires Visible(g, path, key) && path != gone
    ensures Visible(DeleteFile(g, gone, Some(h), now), path, key) <==> DefinesEdge(gone, key) !in g.edges
  {
  }

  /** So `definitions` of its name answers the other file no longer. */
  lemma DeletedFromAnswer(g: Graph, gone: string, path: string, key: string, name: string, h: Head, now: int)
    requires DefinesEdge(path, key) in Definitions(g, name) && path != gone
    ensures DefinesEdge(path, key) in Definitions(DeleteFile(g, gone, Some(h), now), name) <==>
      DefinesEdge(gone, key) !in g.edges
  {
    VisibleIsMatched(g, path, key, name);
    VisibleIsMatched(DeleteFile(g, gone, Some(h), now), path, key, name);
    DeleteHidesSibling(g, gone, path, key, h, now);
  }

  /** Re-ingesting one file keeps a sibling's shared symbol visible exactly when
      it was never linked to the node or still declares it. */
  lemma ReingestHidesSibling(g: Graph, ex: ExtractedFile, path: string, key: string, h: Head, now: int)
    requires Visible(g, path, key) && path != ex.path && Owner(key) != "name"
    ensures Visible(Reingested(g, ex, Some(h), now), path, key) <==>
      DefinesEdge(ex.path, key) !in g.edges || Declares(ex, key)
  {
    var g1 := DeleteFile(g, ex.path, Some(h), now);
    var g2 := UpsertFile(g1, ex, Some(h));
    UpsertedFile(g1, ex, Some(h));
    FileUntouched(g1, ex, Some(h), path);
    SymbolAfterWrite(g1, ex, Some(h), key);
    EdgeStays(g1, ex, Some(h), DefinesEdge(path, key));
  }

  lemma FileUntouched(g: Graph, ex: ExtractedFile, head: Option<Head>, path: string)
    requires path != ex.path
    ensures Lookup(UpsertFile(g, ex, head).nodes, FileNode(path)) == Lookup(g.nodes, FileNode(path))
  {
    UpsertedFile(g, ex, head);
    RowsOfFile(ex, path);
    UntouchedItem(Lookup(g.nodes, FileNode(path)), NodeRowsOf(ex), FileNode(path), head);
  }

  lemma EdgeStays(g: Graph, ex: ExtractedFile, head: Option<Head>, e: EdgeId)
    ensures e in g.edges || Writes(EdgeRowsOf(ex), e) <==> e in UpsertFile(g, ex, head).edges
  {
    UpsertedFile(g, ex, head);
    assert Lookup(UpsertFile(g, ex, head).edges, e) == ItemAfter(Lookup(g.edges, e), EdgeRowsOf(ex), e, head);
    if Writes(EdgeRowsOf(ex), e) {
      TouchedItem(Lookup(g.edges, e), EdgeRowsOf(ex), e, head);
    } else {
      UntouchedItem(Lookup(g.edges, e), EdgeRowsOf(ex), e, head);
    }
  }

  /** The stamps of a symbol node after a write, and that it stays resolved. */
  lemma SymbolAfterWrite(g: Graph, ex: ExtractedFile, head: Option<Head>, key: string)
    requires Owner(key) != "name"
    ensures
      var before, after := Lookup(g.nodes, SymbolNode(key)), Lookup(UpsertFile(g, ex, head).nodes, SymbolNode(key));
      if Declares(ex, key) then
        && after.Some? && after.value.life == Touch(LifeOf(before), head)
        && ((before.Some? ==> UnresolvedP !in before.value.props) ==> UnresolvedP !in after.value.props)
      else after == before
  {
    WritesIffDeclares(ex, key);
    NodeAfterWrite(g, ex, head, SymbolNode(key));
    if Declares(ex, key) {
      StaysResolved(g, ex, head, key);
    }
  }

  /** An unstamped re-ingest never clears a tombstone: a declared symbol is
      visible afterwards exactly when its node was absent or alive. */
  lemma UnstampedReingest(g: Graph, ex: ExtractedFile, key: string, now: int)
    requires Declares(ex, key) && Owner(key) != "name"
    requires SymbolNode(key) in g.nodes ==> UnresolvedP !in g.nodes[SymbolNode(key)].props
    ensures Visible(Reingested(g, ex, None, now), ex.path, key) <==>
      (SymbolNode(key) in g.nodes ==> LiveNode(g, SymbolNode(key)))
  {
    var g1 := DeleteFile(g, ex.path, None, now);
    UpsertedFile(g1, ex, None);
    RowsOfFile(ex, ex.path);
    TouchedItem(Lookup(g1.nodes, FileNode(ex.path)), NodeRowsOf(ex), FileNode(ex.path), None);
    SymbolAfterWrite(g1, ex, None, key);
    RowsOfDefines(ex, ex.path, key);
    EdgeStays(g1, ex, None, DefinesEdge(ex.path, key));
  }

  /** A stamped re-ingest shows every key that the file declares, and forgets no edge. */
  lemma ReingestShows(g: Graph, ex: ExtractedFile, key: string, h: Head, now: int)
    requires Declares(ex, key) && Owner(key) != "name"
    requires SymbolNode(key) in g.nodes ==> UnresolvedP !in g.nodes[SymbolNode(key)].props
    ensures Visible(Reingested(g, ex, Some(h), now), ex.path, key)
    ensures DefinesEdge(ex.path, key) in Definitions(Reingested(g, ex, Some(h), now), Declaration(ex, key).name)
    ensures forall e :: e in g.edges ==> e in Reingested(g, ex, Some(h), now).edges
  {
    var g1 := DeleteFile(g, ex.path, Some(h), now);
    UpsertedFile(g1, ex, Some(h));
    RowsOfFile(ex, ex.path);
    TouchedItem(Lookup(g1.nodes, FileNode(ex.path)), NodeRowsOf(ex), FileNode(ex.path), Some(h));
    SymbolAfterWrite(g1, ex, Some(h), key);
    WrittenSymbol(g1, ex, h, key);
    RowsOfDefines(ex, ex.path, key);
    VisibleIsMatched(UpsertFile(g1, ex, Some(h)), ex.path, key, Declaration(ex, key).name);
    forall e {
      EdgeStays(g1, ex, Some(h), e);
    }
  }

  const PART := Sym("Order", "class", 3, 9, Some("Shop"), true, None)

  function PartIn(path: string): ExtractedFile {
    ExtractedFile(path, "c_sharp", false, [PART], [], [], [], [])
  }

  const PART_KEY := "partial::Shop.Order"

  lemma PartKey(path: string)
    ensures Declares(PartIn(path), PART_KEY) && Owner(PART_KEY) != "name" && Declaration(PartIn(path), PART_KEY) == PART
  {
    assert SymbolKey(path, PartIn(path).symbols[0]) == PART_KEY;
    OwnerOfJoined("partial", "Shop.Order");
    assert PART_KEY == "partial" + "::" + "Shop.Order";
  }

  /** Two files declare parts of one class; deleting one of them hides the class
      although the other file is still there and still declares it: `definitions` of
      its name listed that file before, and does not any more. */
  lemma PartialClassVanishes(p: string, q: string, h: Head, now: int)
    requires p != q
    ensures
      var both := Reingested(Reingested(EMPTY, PartIn(p), Some(h), now), PartIn(q), Some(h), now);
      && DefinesEdge(q, PART_KEY) in Definitions(both, "Order") && Declares(PartIn(q), PART_KEY)
      && DefinesEdge(q, PART_KEY) !in Definitions(DeleteFile(both, p, Some(h), now), "Order")
  {
    PartKey(p);
    PartKey(q);
    ReingestShows(EMPTY, PartIn(p), PART_KEY, h, now);
    var g := Reingested(EMPTY, PartIn(p), Some(h), now);
    ReingestShows(g, PartIn(q), PART_KEY, h, now);
    DeletedFromAnswer(Reingested(g, PartIn(q), Some(h), now), p, q, PART_KEY, "Order", h, now);
  }

  // ---------------------------------------------------------------- properties that a write leaves behind

  /** Some declaration of the key gives the property. */
  predicate SaidBySome(ex: ExtractedFile, key: string, name: PropName) {
    exists i :: 0 <= i < |ex.symbols| && SaysAt(ex, key, name, i)
  }

  predicate SaysAt(ex: ExtractedFile, key: string, name: PropName, i: nat)
    requires i < |ex.symbols|
  {
    SymbolKey(ex.path, ex.symbols[i]) == key && Said(ex.path, ex.symbols[i], name).Some?
  }

  lemma SaidLast(g: Graph, ex: ExtractedFile, head: Option<Head>, key: string, name: PropName)
    requires Owner(key) != "name" && Declares(ex, key) && Said(ex.path, Declaration(ex, key), name).Some?
    ensures PropOf(Lookup(UpsertFile(g, ex, head).nodes, SymbolNode(key)), name)
      == Said(ex.path, Declaration(ex, key), name)
  {
    var d := LastIndex(ex, key);
    WrittenProp(g, ex, head, key, name, d);
  }

  lemma SaidEarlier(g: Graph, ex: ExtractedFile, head: Option<Head>, key: string, name: PropName)
    requires Owner(key) != "name" && SaidBySome(ex, key, name)
    ensures PropOf(Lookup(UpsertFile(g, ex, head).nodes, SymbolNode(key)), name).Some?
  {
    var p := (s: Sym) => SymbolKey(ex.path, s) == key && Said(ex.path, s, name).Some?;
    var j :| 0 <= j < |ex.symbols| && SaysAt(ex, key, name, j);
    assert p(ex.symbols[j]);
    var i := LastSuch(ex.symbols, p);
    WrittenProp(g, ex, head, key, name, i);
  }

  lemma SaidByNone(g: Graph, ex: ExtractedFile, head: Option<Head>, key: string, name: PropName)
    requires Owner(key) != "name" && !SaidBySome(ex, key, name)
    ensures PropOf(Lookup(UpsertFile(g, ex, head).nodes, SymbolNode(key)), name)
      == PropOf(Lookup(g.nodes, SymbolNode(key)), name)
  {
    forall j | 0 <= j < |ex.symbols| && SymbolKey(ex.path, ex.symbols[j]) == key
      ensures Said(ex.path, ex.symbols[j], name).None?
    {
      assert !SaysAt(ex, key, name, j);
    }
    KeptProp(g, ex, head, key, name);
  }

  /** A write merges properties and removes none. After it, a property of a symbol is the one that the declaration
      that counts gives exactly if that declaration gives it, or if no declaration of the key gives it and the node
      had none. */
  lemma PropRightIff(g: Graph, ex: ExtractedFile, head: Option<Head>, key: string, name: PropName)
    requires Owner(key) != "name" && Declares(ex, key)
    ensures
      var before := PropOf(Lookup(g.nodes, SymbolNode(key)), name);
      var after := PropOf(Lookup(UpsertFile(g, ex, head).nodes, SymbolNode(key)), name);
      var said := Said(ex.path, Declaration(ex, key), name);
      after == said <==> said.Some? || (before.None? && !SaidBySome(ex, key, name))
  {
    if Said(ex.path, Declaration(ex, key), name).Some? {
      SaidLast(g, ex, head, key, name);
    } else if SaidBySome(ex, key, name) {
      SaidEarlier(g, ex, head, key, name);
    } else {
      SaidByNone(g, ex, head, key, name);
    }
  }

  function OneDeclaration(path: string, s: Sym): ExtractedFile {
    ExtractedFile(path, "", false, [s], [], [], [], [])
  }

  lemma OnlyOneDeclares(path: string, s: Sym, key: string)
    ensures Declares(OneDeclaration(path, s), key) <==> SymbolKey(path, s) == key
    ensures SymbolKey(path, s) == key ==> Declaration(OneDeclaration(path, s), key) == s
  {
    assert OneDeclaration(path, s).symbols[0] == s;
  }

  lemma ParamsWritten(g: Graph, path: string, s: Sym, h: Head, now: int)
    requires GoodPath(path) && s.paramCount.Some?
    ensures PropOf(Lookup(Apply(g, Reingest(OneDeclaration(path, s), h, now)).nodes, SymbolNode(SymbolKey(path, s))),
                   ParamsP) == Some(Number(s.paramCount.value))
  {
    OwnerOfSymbolKey(path, s);
    OnlyOneDeclares(path, s, SymbolKey(path, s));
    SaidLast(DeleteFile(g, path, Some(h), now), OneDeclaration(path, s), Some(h), SymbolKey(path, s), ParamsP);
  }

  lemma ParamsKept(g: Graph, path: string, s: Sym, h: Head, now: int)
    requires GoodPath(path) && s.paramCount.None?
    ensures
      var id, g' := SymbolNode(SymbolKey(path, s)), Apply(g, Reingest(OneDeclaration(path, s), h, now));
      PropOf(Lookup(g'.nodes, id), ParamsP) == PropOf(Lookup(g.nodes, id), ParamsP)
  {
    OwnerOfSymbolKey(path, s);
    SaidByNone(DeleteFile(g, path, Some(h), now), OneDeclaration(path, s), Some(h), SymbolKey(path, s), ParamsP);
  }

  lemma TwoSteps(a: Step, b: Step)
    ensures Run([a, b]) == Apply(Run([a]), b) && Run([a]) == Apply(EMPTY, a)
  {
    assert [a, b][..1] == [a] && [a][..0] == [];
  }

  /** So an optional property outlives the declaration that gave it: at the same name and line, a declaration
      without parameters after one with parameters leaves the old count. */
  lemma ParamsOutlive(path: string, before: Sym, after: Sym, h1: Head, h2: Head, now1: int, now2: int)
    requires GoodPath(path) && before.name == after.name && before.startLine == after.startLine
    requires !Shared(before) && !Shared(after) && before.paramCount.Some? && after.paramCount.None?
    ensures
      var steps :=
        [Reingest(OneDeclaration(path, before), h1, now1), Reingest(OneDeclaration(path, after), h2, now2)];
      var id := SymbolNode(SymbolKey(path, after));
      PropOf(Lookup(Run(steps).nodes, id), ParamsP) == Some(Number(before.paramCount.value))
  {
    var s1, s2 := Reingest(OneDeclaration(path, before), h1, now1), Reingest(OneDeclaration(path, after), h2, now2);
    TwoSteps(s1, s2);
    assert SymbolKey(path, before) == SymbolKey(path, after);
    ParamsWritten(EMPTY, path, before, h1, now1);
    ParamsKept(Run([s1]), path, after, h2, now2);
  }

  /** The same for the receiver type of a CALLS edge and the call that decides its `args`: where one call of a name
      has a receiver type and a later, different one has none, the edge mixes the two. */
  lemma ReceiverRightIff(g: Graph, ex: ExtractedFile, h: Head, name: string, i: nat)
    requires Decides(ex.calls, name, AnyCall, i)
    ensures
      var e := UseEdge(Calls, ex.path, name);
      var before, after := Lookup(g.edges, e), Lookup(UpsertFile(g, ex, Some(h)).edges, e);
      && PropOf(after, ArgsP) == Some(Number(ex.calls[i].arity))
      && (PropOf(after, ReceiverTypeP) ==
            (if Receives(ex.calls[i]) then Some(Text(ex.calls[i].receiverType.value)) else None) <==>
          || Receives(ex.calls[i])
          || (PropOf(before, ReceiverTypeP).None?
              && forall c :: c in ex.calls && c.name == name ==> !Receives(c)))
  {
    var e := UseEdge(Calls, ex.path, name);
    var before := Lookup(g.edges, e);
    EdgeItemAfterWrite(g, ex, h, e);
    CallEdgeAfter(before, ex, name, Some(h), i);
    if Receives(ex.calls[i]) {
      ReceiverAfter(before, ex, name, Some(h), i);
    } else if c :| c in ex.calls && c.name == name && Receives(c) {
      var j := SomeCallDecides(ex.calls, name, Receives);
      ReceiverAfter(before, ex, name, Some(h), j);
    } else {
      ReceiverKept(before, ex, name, Some(h));
    }
  }

  // ---------------------------------------------------------------- what a delete spares

  /** A stamped delete touches no module, no unresolved node, no other file and no symbol that the file never defined,
      and no edge but the file's own. */
  lemma DeleteSpares(g: Graph, path: string, h: Head, now: int, id: NodeId, e: EdgeId)
    requires id in g.nodes ==> id != FileNode(path) && (id.tag == Symbol ==>
      UnresolvedP in g.nodes[id].props || EdgeId(Defines, FileNode(path), id) !in g.edges)
    requires e.src != FileNode(path) && e.dst != FileNode(path)
    ensures Lookup(DeleteFile(g, path, Some(h), now).nodes, id) == Lookup(g.nodes, id)
    ensures Lookup(DeleteFile(g, path, Some(h), now).edges, e) == Lookup(g.edges, e)
  {
  }

  // ---------------------------------------------------------------- deleting without a commit

  lemma UnstampedDefinitions(g: Graph, path: string, now: int, name: string)
    ensures Definitions(DeleteFile(g, path, None, now), name) ==
      Definitions(g, name) - set e | e in Definitions(g, name) && e.src == FileNode(path)
  {
    var g' := DeleteFile(g, path, None, now);
    forall e
      ensures e in Definitions(g', name) <==> e in Definitions(g, name) && e.src != FileNode(path)
      ensures e in Definitions(g', name) ==> Definitions(g', name)[e] == Definitions(g, name)[e]
    {
    }
  }

  lemma UnstampedImporters(g: Graph, path: string, now: int, mod: string)
    ensures Importers(DeleteFile(g, path, None, now), mod) == Importers(g, mod) - {path}
  {
    var g' := DeleteFile(g, path, None, now);
    forall p
      ensures p in Importers(g', mod) <==> p in Importers(g, mod) && p != path
    {
      if p in Importers(g, mod) && p != path {
        var e :| e in g.edges && ImportMatch(g, mod, e) && e.src.key == p;
        assert e in g'.edges && ImportMatch(g', mod, e);
      }
      if p in Importers(g', mod) {
        var e :| e in g'.edges && ImportMatch(g', mod, e) && e.src.key == p;
        assert e in g.edges && ImportMatch(g, mod, e);
      }
    }
  }

  /** Without a commit a delete forgets the file at once: its definitions and imports are no longer listed, those of
      other files are. Its symbols stay in the graph, with nothing that defines them. */
  lemma UnstampedDelete(g: Graph, path: string, now: int, name: string, mod: string, key: string)
    ensures
      var g' := DeleteFile(g, path, None, now);
      && Definitions(g', name) == Definitions(g, name) - (set e | e in Definitions(g, name) && e.src == FileNode(path))
      && Importers(g', mod) == Importers(g, mod) - {path}
      && Lookup(g'.nodes, SymbolNode(key)) == Lookup(g.nodes, SymbolNode(key))
      && FileNode(path) !in g'.nodes
      && (FileNode(path) in g.nodes ==> forall e :: e in g'.edges ==> !Touches(e, FileNode(path)))
  {
    UnstampedDefinitions(g, path, now, name);
    UnstampedImporters(g, path, now, mod);
  }
}
