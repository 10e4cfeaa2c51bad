/** Loading the documents that a project refers to, directly or through other projects. */
module ProjectResolvers {
  import opened Options

  /** What a file turns out to be. The references of a project are absolute paths. */
  datatype Document = Project(references: seq<string>) | Testcase | Invalid

  type Files = map<string, Document>

  datatype LoadError = Duplicate(path: string) | Missing(path: string) | Broken(path: string)

  /** One reference of a project: which, and the how-manieth. */
  datatype Reference = Reference(source: string, index: nat)

  function References(files: Files, path: string): seq<string> {
    if path in files && files[path].Project? then files[path].references else []
  }

  predicate Loadable(files: Files, path: string) {
    path in files && files[path] != Invalid
  }

  predicate IsReference(files: Files, r: Reference) {
    r.index < |References(files, r.source)|
  }

  function Target(files: Files, r: Reference): string
    requires IsReference(files, r)
  {
    References(files, r.source)[r.index]
  }

  // ----------------------------------------------------------- specification

  /** A chain of references that starts at the root. */
  ghost predicate Chain(files: Files, root: string, route: seq<string>) {
    && route != [] && route[0] == root
    && forall i {:trigger Linked(files, route, i)} | 0 <= i < |route| - 1 :: Linked(files, route, i)
  }

  predicate Linked(files: Files, route: seq<string>, i: nat)
    requires i + 1 < |route|
  {
    route[i + 1] in References(files, route[i])
  }

  ghost predicate Reached(files: Files, root: string, path: string) {
    exists route :: Chain(files, root, route) && route[|route| - 1] == path
  }

  /** Every reference of the reached projects has a target of its own, and none leads back to the root. */
  ghost predicate IsTree(files: Files, root: string) {
    && (forall r {:trigger Counts(files, root, r)} | Counts(files, root, r) :: Target(files, r) != root)
    && (forall r, t {:trigger Counts(files, root, r), Counts(files, root, t)} |
          Counts(files, root, r) && Counts(files, root, t) && Target(files, r) == Target(files, t) :: r == t)
  }

  ghost predicate Counts(files: Files, root: string, r: Reference) {
    IsReference(files, r) && Reached(files, root, r.source)
  }

  lemma RootReached(files: Files, root: string)
    ensures Reached(files, root, root)
  {
    assert Chain(files, root, [root]);
  }

  lemma ReachedOn(files: Files, root: string, r: Reference)
    requires Counts(files, root, r)
    ensures Reached(files, root, Target(files, r))
  {
    var route :| Chain(files, root, route) && route[|route| - 1] == r.source;
    var longer := route + [Target(files, r)];
    forall i | 0 <= i < |longer| - 1 ensures Linked(files, longer, i) {
      if i < |route| - 1 { assert Linked(files, route, i); }
    }
    assert Chain(files, root, longer);
  }

  /** A set of paths that has the root and the targets of its members has everything that is reached. */
  lemma {:induction false} ClosedHasReached(files: Files, root: string, paths: set<string>, route: seq<string>)
    requires root in paths && Chain(files, root, route)
    requires forall p, q {:trigger q in References(files, p)} | p in paths && q in References(files, p) :: q in paths
    ensures route[|route| - 1] in paths
    decreases |route|
  {
    if |route| > 1 {
      var shorter := route[..|route| - 1];
      forall i | 0 <= i < |shorter| - 1 ensures Linked(files, shorter, i) {
        assert Linked(files, route, i);
      }
      ClosedHasReached(files, root, paths, shorter);
      assert Linked(files, route, |route| - 2);
    }
  }

  // -------------------------------------------------------------- worklist

  /** The paths that any project mentions: finitely many. */
  function Mentioned(files: Files): set<string> {
    set p, q | p in files && q in References(files, p) :: q
  }

  /** Where the entries of the worklist, and the paths that were resolved, come from. */
  ghost predicate Traced(files: Files, root: string, resolved: set<string>, unresolved: seq<string>,
                         origins: seq<Reference>, via: map<string, Reference>)
  {
    && root in resolved && |origins| == |unresolved| && via.Keys == resolved - {root}
    && (forall k {:trigger origins[k]} | 0 <= k < |origins| ::
          IsReference(files, origins[k]) && origins[k].source in resolved && Target(files, origins[k]) == unresolved[k])
    && (forall j, k {:trigger origins[j], origins[k]} | 0 <= j < k < |origins| :: origins[j] != origins[k])
    && (forall q {:trigger via[q]} | q in via ::
          IsReference(files, via[q]) && via[q].source in resolved && Target(files, via[q]) == q && via[q] !in origins)
    && forall r {:trigger IsReference(files, r)} | IsReference(files, r) && r.source in resolved ::
         r in origins || (Target(files, r) in via && via[Target(files, r)] == r)
  }

  ghost predicate AllReached(files: Files, root: string, paths: set<string>) {
    forall p | p in paths :: Reached(files, root, p)
  }

  function OriginsOf(files: Files, path: string): (r: seq<Reference>)
    ensures |r| == |References(files, path)| && forall k | 0 <= k < |r| :: r[k] == Reference(path, k)
  {
    seq(|References(files, path)|, k requires 0 <= k < |References(files, path)| => Reference(path, k))
  }

  /** One path is resolved and its references join the worklist. */
  lemma TraceStep(files: Files, root: string, resolved: set<string>, unresolved: seq<string>,
                  origins: seq<Reference>, via: map<string, Reference>)
    requires Traced(files, root, resolved, unresolved, origins, via) && unresolved != [] && unresolved[0] !in resolved
    ensures var q := unresolved[0];
            Traced(files, root, resolved + {q}, unresolved[1..] + References(files, q),
                   origins[1..] + OriginsOf(files, q), via[q := origins[0]])
  {
    var q := unresolved[0];
    var more := OriginsOf(files, q);
    assert origins == [origins[0]] + origins[1..];
    assert forall k | 0 < k < |origins| :: origins[k] != origins[0];
    NewOriginsDiffer(files, resolved, origins, q);
    forall k | 0 <= k < |origins[1..] + more|
      ensures IsReference(files, (origins[1..] + more)[k]) && (origins[1..] + more)[k].source in resolved + {q}
      ensures Target(files, (origins[1..] + more)[k]) == (unresolved[1..] + References(files, q))[k]
    {
      if k < |origins| - 1 { assert (origins[1..] + more)[k] == origins[k + 1]; }
    }
    forall r | IsReference(files, r) && r.source in resolved + {q}
      ensures r in origins[1..] + more ||
              (Target(files, r) in via[q := origins[0]] && via[q := origins[0]][Target(files, r)] == r)
    {
      if r.source == q { assert more[r.index] == r; }
    }
  }

  /** References of a path that was not resolved yet are new. */
  lemma NewOriginsDiffer(files: Files, resolved: set<string>, origins: seq<Reference>, q: string)
    requires q !in resolved && origins != []
    requires forall k {:trigger origins[k]} | 0 <= k < |origins| :: origins[k].source in resolved
    requires forall j, k {:trigger origins[j], origins[k]} | 0 <= j < k < |origins| :: origins[j] != origins[k]
    ensures var next := origins[1..] + OriginsOf(files, q); forall j, k | 0 <= j < k < |next| :: next[j] != next[k]
    ensures origins[0] !in origins[1..] + OriginsOf(files, q)
  {
    var next := origins[1..] + OriginsOf(files, q);
    forall j, k | 0 <= j < k < |next| ensures next[j] != next[k] {
      if k < |origins| - 1 { assert origins[j + 1] != origins[k + 1]; }
      if j < |origins| - 1 { assert next[j] == origins[j + 1]; }
    }
    forall j | 0 <= j < |next| ensures next[j] != origins[0] {
      if j < |origins| - 1 { assert next[j] == origins[j + 1]; }
    }
  }

  lemma TraceBegins(files: Files, root: string)
    ensures Traced(files, root, {root}, References(files, root), OriginsOf(files, root), map[])
    ensures AllReached(files, root, {root})
  {
    RootReached(files, root);
    forall r | IsReference(files, r) && r.source == root ensures r in OriginsOf(files, root) {
      assert OriginsOf(files, root)[r.index] == r;
    }
  }

  /** What is on the worklist is reached. */
  lemma HeadReached(files: Files, root: string, resolved: set<string>, unresolved: seq<string>,
                    origins: seq<Reference>, via: map<string, Reference>)
    requires Traced(files, root, resolved, unresolved, origins, via) && AllReached(files, root, resolved)
    requires unresolved != []
    ensures Reached(files, root, unresolved[0]) && Counts(files, root, origins[0])
    ensures unresolved[0] in Mentioned(files)
  {
    assert Counts(files, root, origins[0]);
    ReachedOn(files, root, origins[0]);
    assert unresolved[0] in References(files, origins[0].source);
  }

  /** A path that comes up again is the target of two references, or the root. */
  lemma AgainMeansNoTree(files: Files, root: string, resolved: set<string>, unresolved: seq<string>,
                         origins: seq<Reference>, via: map<string, Reference>)
    requires Traced(files, root, resolved, unresolved, origins, via) && AllReached(files, root, resolved)
    requires unresolved != [] && unresolved[0] in resolved
    ensures !IsTree(files, root)
  {
    HeadReached(files, root, resolved, unresolved, origins, via);
    var q := unresolved[0];
    if q != root {
      assert via[q] != origins[0];
      assert Counts(files, root, via[q]);
    }
  }

  /** An empty worklist means that every reference was followed once. */
  lemma DoneMeansTree(files: Files, root: string, resolved: set<string>, via: map<string, Reference>)
    requires Traced(files, root, resolved, [], [], via) && AllReached(files, root, resolved)
    ensures IsTree(files, root) && forall p {:trigger Reached(files, root, p)} :: Reached(files, root, p) <==> p in resolved
  {
    forall p, q {:trigger q in References(files, p)} | p in resolved && q in References(files, p) ensures q in resolved {
      var k :| 0 <= k < |References(files, p)| && References(files, p)[k] == q;
      assert IsReference(files, Reference(p, k));
    }
    forall p | Reached(files, root, p) ensures p in resolved {
      var route :| Chain(files, root, route) && route[|route| - 1] == p;
      ClosedHasReached(files, root, resolved, route);
    }
  }

  // ------------------------------------------------------------------ class

  /** The documents are the loadable ones among these paths, each once, and the errors name the others. */
  ghost predicate Recorded(files: Files, paths: set<string>, documents: seq<string>, errors: seq<LoadError>) {
    && (forall p {:trigger p in documents} :: p in documents <==> p in paths && Loadable(files, p))
    && (forall i, j | 0 <= i < j < |documents| :: documents[i] != documents[j])
    && (forall p {:trigger Missing(p)} :: Missing(p) in errors <==> p in paths && p !in files)
    && (forall p {:trigger Broken(p)} :: Broken(p) in errors <==> p in paths && p in files && files[p] == Invalid)
  }

  function DocumentOf(files: Files, path: string): seq<string> {
    if Loadable(files, path) then [path] else []
  }

  function ErrorOf(files: Files, path: string): seq<LoadError> {
    if path !in files then [Missing(path)] else if files[path] == Invalid then [Broken(path)] else []
  }

  lemma RecordStep(files: Files, paths: set<string>, documents: seq<string>, errors: seq<LoadError>, q: string)
    requires Recorded(files, paths, documents, errors) && q !in paths && NoDuplicate(errors)
    ensures Recorded(files, paths + {q}, documents + DocumentOf(files, q), errors + ErrorOf(files, q))
    ensures NoDuplicate(errors + ErrorOf(files, q))
  {
    assert q !in documents;
    var more := errors + ErrorOf(files, q);
    forall p ensures Missing(p) in more <==> p in paths + {q} && p !in files {
      assert Missing(p) in more <==> Missing(p) in errors || Missing(p) in ErrorOf(files, q);
    }
    forall p ensures Broken(p) in more <==> p in paths + {q} && p in files && files[p] == Invalid {
      assert Broken(p) in more <==> Broken(p) in errors || Broken(p) in ErrorOf(files, q);
    }
  }

  /** Exactly what is reached from the root was loaded, each document once, and exactly the errors were noted. */
  ghost predicate Complete(files: Files, root: string, documents: seq<string>, errors: seq<LoadError>) {
    && (forall p {:trigger p in documents} :: p in documents <==> Reached(files, root, p) && Loadable(files, p))
    && (forall i, j | 0 <= i < j < |documents| :: documents[i] != documents[j])
    && (forall p {:trigger Missing(p)} :: Missing(p) in errors <==> Reached(files, root, p) && p !in files)
    && (forall p {:trigger Broken(p)} ::
          Broken(p) in errors <==> Reached(files, root, p) && p in files && files[p] == Invalid)
  }

  lemma RecordIsComplete(files: Files, root: string, paths: set<string>, documents: seq<string>, errors: seq<LoadError>)
    requires Recorded(files, paths, documents, errors)
    requires forall p {:trigger Reached(files, root, p)} :: Reached(files, root, p) <==> p in paths
    ensures Complete(files, root, documents, errors)
  {
  }

  ghost predicate NoDuplicate(errors: seq<LoadError>) {
    forall e | e in errors :: !e.Duplicate?
  }

  // ------------------------------------------------------ the order of loading

  predicate IsMissing(files: Files, path: string) {
    path !in files
  }

  predicate IsBroken(files: Files, path: string) {
    path in files && files[path] == Invalid
  }

  /** The worklist from here on: what is resolved, in order, until it is empty or a path comes up again. */
  ghost function Rest(files: Files, resolved: set<string>, unresolved: seq<string>): seq<string>
    requires forall p | p in unresolved :: p in Mentioned(files)
    decreases Mentioned(files) - resolved
  {
    if unresolved == [] || unresolved[0] in resolved then []
    else
      var q := unresolved[0];
      MoreMentioned(files, unresolved, q);
      [q] + Rest(files, resolved + {q}, unresolved[1..] + References(files, q))
  }

  lemma MoreMentioned(files: Files, unresolved: seq<string>, q: string)
    requires unresolved != [] && forall p | p in unresolved :: p in Mentioned(files)
    ensures forall p | p in unresolved[1..] + References(files, q) :: p in Mentioned(files)
  {
    forall p | p in References(files, q) ensures p in Mentioned(files) {
      assert q in files;
    }
  }

  lemma RootMentions(files: Files, root: string)
    ensures forall p | p in References(files, root) :: p in Mentioned(files)
  {
    forall p | p in References(files, root) ensures p in Mentioned(files) {
      assert root in files;
    }
  }

  /** The files that follow the root, in the order of loading. */
  ghost function LoadOrder(files: Files, root: string): seq<string> {
    RootMentions(files, root);
    Rest(files, {root}, References(files, root))
  }

  /** No missing file comes right after a broken one. The document of a broken file is gone when the next file is
      looked up, and the error about a missing file asks it for its path. */
  ghost predicate GetsThrough(files: Files, root: string) {
    NoTrap(files, LoadOrder(files, root))
  }

  ghost predicate NoTrap(files: Files, order: seq<string>) {
    forall i {:trigger Trapped(files, order, i)} | 0 <= i < |order| - 1 :: !Trapped(files, order, i)
  }

  predicate Trapped(files: Files, order: seq<string>, i: nat)
    requires i + 1 < |order|
  {
    IsBroken(files, order[i]) && IsMissing(files, order[i + 1])
  }

  /** The document that was current last, after these files. */
  function Current(files: Files, root: string, loaded: seq<string>): Option<string> {
    if loaded == [] then Some(root)
    else if IsMissing(files, loaded[|loaded| - 1]) then Current(files, root, loaded[..|loaded| - 1])
    else if IsBroken(files, loaded[|loaded| - 1]) then None
    else Some(loaded[|loaded| - 1])
  }

  /** In the same words for every file: a missing one is survived exactly if the last existing file before it, or the
      root, was not broken. */
  ghost predicate LastExistingIntact(files: Files, root: string, order: seq<string>) {
    forall i | 0 <= i < |order| && IsMissing(files, order[i]) :: Current(files, root, order[..i]).Some?
  }

  lemma {:induction false} CurrentIsIntact(files: Files, root: string, order: seq<string>, i: nat)
    requires NoTrap(files, order) && i < |order| && IsMissing(files, order[i])
    ensures Current(files, root, order[..i]).Some?
  {
    if i > 0 {
      assert !Trapped(files, order, i - 1);
      assert order[..i][..i - 1] == order[..i - 1];
      if IsMissing(files, order[i - 1]) { CurrentIsIntact(files, root, order, i - 1); }
    }
  }

  lemma NoTrapMeansIntact(files: Files, root: string, order: seq<string>)
    ensures NoTrap(files, order) <==> LastExistingIntact(files, root, order)
  {
    if NoTrap(files, order) {
      forall i | 0 <= i < |order| && IsMissing(files, order[i]) ensures Current(files, root, order[..i]).Some? {
        CurrentIsIntact(files, root, order, i);
      }
    }
    if LastExistingIntact(files, root, order) {
      forall i | 0 <= i < |order| - 1 ensures !Trapped(files, order, i) {
        var before := order[..i + 1];
        assert before[|before| - 1] == order[i];
        assert IsMissing(files, order[i + 1]) ==> Current(files, root, before).Some?;
      }
    }
  }

  /** Two references are enough: one to a broken file, the next to a missing one. */
  lemma BrokenThenMissing() returns (files: Files)
    ensures Loadable(files, "root.qml") && LoadOrder(files, "root.qml") == ["broken.qml", "missing.qml"]
    ensures !GetsThrough(files, "root.qml")
  {
    files := map["root.qml" := Project(["broken.qml", "missing.qml"]), "broken.qml" := Invalid];
    RootMentions(files, "root.qml");
    var broken, missing := "broken.qml", "missing.qml";
    assert |broken| != |missing| && |"root.qml"| != |broken|;
    var all := References(files, "root.qml");
    MoreMentioned(files, all, broken);
    assert all == [broken, missing];
    assert all[1..] + References(files, broken) == [missing];
    MoreMentioned(files, [missing], missing);
    var one := [missing];
    assert one[1..] + References(files, missing) == [];
    assert Rest(files, {"root.qml", broken, missing}, []) == [];
    assert {"root.qml"} + {broken} + {missing} == {"root.qml", broken, missing};
    assert |"root.qml"| == 8 && |missing| == 11;
    assert Rest(files, {"root.qml"} + {broken}, one) == [missing];
    assert LoadOrder(files, "root.qml") == [broken, missing];
    assert Trapped(files, [broken, missing], 0);
  }

  /** What was loaded, and what is still to come, is the load order, and no trap was met so far. */
  ghost predicate Loading(files: Files, root: string, resolved: set<string>, unresolved: seq<string>,
                          loaded: seq<string>, current: Option<string>) {
    && (forall p | p in unresolved :: p in Mentioned(files))
    && LoadOrder(files, root) == loaded + Rest(files, resolved, unresolved)
    && NoTrap(files, loaded)
    && (current.None? <==> loaded != [] && IsBroken(files, loaded[|loaded| - 1]))
  }

  lemma LoadBegins(files: Files, root: string)
    ensures Loading(files, root, {root}, References(files, root), [], Some(root))
  {
    RootMentions(files, root);
    assert [] + LoadOrder(files, root) == LoadOrder(files, root);
  }

  lemma LoadEnds(files: Files, root: string, resolved: set<string>, unresolved: seq<string>, loaded: seq<string>,
                 current: Option<string>)
    requires Loading(files, root, resolved, unresolved, loaded, current)
    requires unresolved == [] || unresolved[0] in resolved
    ensures GetsThrough(files, root)
  {
    assert loaded + [] == loaded;
  }

  /** What the next file does to the current document decides whether the load goes on. */
  lemma LoadStep(files: Files, root: string, resolved: set<string>, unresolved: seq<string>, loaded: seq<string>,
                 current: Option<string>)
    requires Loading(files, root, resolved, unresolved, loaded, current)
    requires unresolved != [] && unresolved[0] !in resolved
    ensures var q := unresolved[0];
            var next := if IsMissing(files, q) then current else if IsBroken(files, q) then None else Some(q);
            if IsMissing(files, q) && current.None? then !GetsThrough(files, root)
            else Loading(files, root, resolved + {q}, unresolved[1..] + References(files, q), loaded + [q], next)
  {
    var q := unresolved[0];
    MoreMentioned(files, unresolved, q);
    LoadedOne(files, loaded, q, Rest(files, resolved + {q}, unresolved[1..] + References(files, q)));
  }

  class ProjectResolver {
    var documents: seq<string>
    var errors: seq<LoadError>
    /** The weak pointer to the document created last; it expires with a document that nothing keeps. */
    var currentDocument: Option<string>

    /** After the document of the root was created. */
    constructor (root: string)
      ensures documents == [] && errors == [] && currentDocument == Some(root)
    {
      documents, errors, currentDocument := [], [], Some(root);
    }

    /** A file that is missing or broken is noted, and has no references. There is no result when the current document
        is followed and does not exist any more. */
    method ResolveProjectReference(files: Files, path: string) returns (unresolved: Option<seq<string>>)
      modifies this
      ensures unresolved.None? <==> IsMissing(files, path) && old(currentDocument).None?
      ensures unresolved.Some? ==>
                && unresolved.value == References(files, path)
                && documents == old(documents) + DocumentOf(files, path)
                && errors == old(errors) + ErrorOf(files, path)
                && currentDocument == if IsMissing(files, path) then old(currentDocument)
                                      else if IsBroken(files, path) then None else Some(path)
      ensures unresolved.None? ==> documents == old(documents) && errors == old(errors)
    {
      if path !in files {
        if currentDocument.None? {
          return None;
        }
        errors := errors + [Missing(path)];
        return Some([]);
      }
      currentDocument := Some(path);
      if files[path] == Invalid {
        errors := errors + [Broken(path)];
        currentDocument := None;
        return Some([]);
      }
      if files[path].Project? {
        unresolved := Some(files[path].references);
      } else {
        unresolved := Some([]);
      }
      documents := documents + [path];
    }

    /** The references of the root, then those of what they lead to, until none is left or one leads to a path that
        was resolved before. The load gets through exactly if no missing file comes right after a broken one. Then the
        error about a repeated path is raised exactly if the references do not form a tree; without it, exactly what
        is reached from the root is loaded, each document once. */
    method BeginLoad(files: Files, root: string) returns (through: bool)
      requires Loadable(files, root) && documents == [] && errors == [] && currentDocument == Some(root)
      modifies this
      ensures through <==> GetsThrough(files, root)
      ensures through ==> (NoDuplicate(errors) <==> IsTree(files, root))
      ensures through && IsTree(files, root) ==> Complete(files, root, documents, errors)
      ensures forall p | p in documents :: Loadable(files, p) && Reached(files, root, p)
    {
      documents := [root];
      assert errors == [];
      var unresolved := References(files, root);
      var resolved := {root};
      ghost var origins, via, loaded := OriginsOf(files, root), map[], [];
      TraceBegins(files, root);
      LoadBegins(files, root);
      while unresolved != []
        invariant Traced(files, root, resolved, unresolved, origins, via) && AllReached(files, root, resolved)
        invariant Recorded(files, resolved, documents, errors) && NoDuplicate(errors)
        invariant Loading(files, root, resolved, unresolved, loaded, currentDocument)
        decreases Mentioned(files) - resolved
      {
        var reference := unresolved[0];
        HeadReached(files, root, resolved, unresolved, origins, via);
        if reference in resolved {
          AgainMeansNoTree(files, root, resolved, unresolved, origins, via);
          errors := errors + [Duplicate(reference)];
          assert errors[|errors| - 1].Duplicate?;
          LoadEnds(files, root, resolved, unresolved, loaded, currentDocument);
          return true;
        }
        TraceStep(files, root, resolved, unresolved, origins, via);
        RecordStep(files, resolved, documents, errors, reference);
        LoadStep(files, root, resolved, unresolved, loaded, currentDocument);
        var more := ResolveProjectReference(files, reference);
        if more.None? {
          return false;
        }
        origins, via := origins[1..] + OriginsOf(files, reference), via[reference := origins[0]];
        loaded := loaded + [reference];
        unresolved := unresolved[1..] + more.value;
        resolved := resolved + {reference};
      }
      assert origins == [];
      LoadEnds(files, root, resolved, unresolved, loaded, currentDocument);
      DoneMeansTree(files, root, resolved, via);
      RecordIsComplete(files, root, resolved, documents, errors);
      return true;
    }
  }

  /** One file more was loaded: a missing one after a broken one is where it ends. */
  lemma LoadedOne(files: Files, loaded: seq<string>, q: string, rest: seq<string>)
    requires NoTrap(files, loaded)
    ensures loaded + ([q] + rest) == (loaded + [q]) + rest
    ensures var broken := loaded != [] && IsBroken(files, loaded[|loaded| - 1]);
            if broken && IsMissing(files, q) then !NoTrap(files, (loaded + [q]) + rest) else NoTrap(files, loaded + [q])
  {
    var longer := loaded + [q];
    var whole := longer + rest;
    if loaded != [] {
      var i := |loaded| - 1;
      assert Trapped(files, whole, i) == Trapped(files, longer, i);
      forall k | 0 <= k < i ensures Trapped(files, longer, k) == Trapped(files, loaded, k) {}
    }
  }
}
