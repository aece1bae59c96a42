/**
  Which changes of configuration files a reload notices: a handler reads its file
  and, recursively, the files that one inherits, but the comparison looks only one level
  deep.
 */
module Inherits {
  import opened Handlers

  /** What `ProcessInherits` reads for a file, cut off at some depth. */
  datatype Tree = Cut | Node(body: nat, inherited: seq<Tree>)

  function TreeTo(files: Files, f: FileName, depth: nat): Tree
    decreases depth
  {
    if depth == 0 then Cut
    else
      var file := FileOf(files, f);
      Node(file.body,
           seq(|file.inherits|, k requires 0 <= k < |file.inherits| => TreeTo(files, file.inherits[k], depth - 1)))
  }

  /** A handler reads the same from `f` as from `g`, to any depth. */
  ghost predicate SameRead(before: Files, f: FileName, after: Files, g: FileName) {
    forall depth: nat :: TreeTo(before, f, depth) == TreeTo(after, g, depth)
  }

  /** Equal files read the same exactly when all that they inherit does. */
  lemma ReadByParts(before: Files, f: FileName, after: Files, g: FileName)
    requires FileOf(before, f) == FileOf(after, g)
    ensures SameRead(before, f, after, g) <==>
            forall k :: 0 <= k < |FileOf(after, g).inherits| ==>
              SameRead(before, FileOf(after, g).inherits[k], after, FileOf(after, g).inherits[k])
  {
    var files := FileOf(after, g).inherits;
    if SameRead(before, f, after, g) {
      forall k, depth: nat | 0 <= k < |files|
        ensures TreeTo(before, files[k], depth) == TreeTo(after, files[k], depth)
      {
        assert TreeTo(before, f, depth + 1).inherited[k] == TreeTo(after, g, depth + 1).inherited[k];
      }
    }
    if forall k :: 0 <= k < |files| ==> SameRead(before, files[k], after, files[k]) {
      forall depth: nat ensures TreeTo(before, f, depth) == TreeTo(after, g, depth) {
        if depth > 0 {
          forall k | 0 <= k < |files|
            ensures TreeTo(before, files[k], depth - 1) == TreeTo(after, files[k], depth - 1)
          {
            assert SameRead(before, files[k], after, files[k]);
          }
          assert TreeTo(before, f, depth).inherited == TreeTo(after, g, depth).inherited;
        }
      }
    }
  }

  /** What may have changed unnoticed about a file inherited directly: if it was read before,
      only what it inherits in turn; if not, anything. */
  ghost predicate Unchanged(before: Files, after: Files, f: FileName) {
    if f in before
    then forall k ::
      0 <= k < |FileOf(after, f).inherits| ==>
        SameRead(before, FileOf(after, f).inherits[k], after, FileOf(after, f).inherits[k])
    else SameRead(before, f, after, f)
  }

  /** An entry is found different exactly when its type, library or overrides differ, its own file reads
      differently, or one of the files that this one names as inherited was cached and reads differently. */
  lemma DifferentIff(before: Files, after: Files, o: Entry, n: Entry)
    ensures !IsDifferent(before, after, o, n) <==>
            && o.typ == n.typ && o.library == n.library && o.overrides == n.overrides
            && FileOf(before, o.confFile) == FileOf(after, n.confFile)
            && forall f :: f in FileOf(after, n.confFile).inherits && f in before ==>
                 FileOf(before, f) == FileOf(after, f)
  {
    var files := FileOf(after, n.confFile).inherits;
    forall k | 0 <= k < |files| ensures files[k] in files { }
  }

  /** An entry that is not found different has the same type, library and overrides, and
      its handler would read the same from its files exactly when nothing changed at the
      second level of inheritance or deeper, or in a file that was not readable before. */
  lemma NotDifferent(before: Files, after: Files, o: Entry, n: Entry)
    requires !IsDifferent(before, after, o, n)
    ensures o.typ == n.typ && o.library == n.library && o.overrides == n.overrides
    ensures SameRead(before, o.confFile, after, n.confFile) <==>
            forall k :: 0 <= k < |FileOf(after, n.confFile).inherits| ==>
              Unchanged(before, after, FileOf(after, n.confFile).inherits[k])
  {
    var files := FileOf(after, n.confFile).inherits;
    ReadByParts(before, o.confFile, after, n.confFile);
    forall k | 0 <= k < |files|
      ensures SameRead(before, files[k], after, files[k]) <==> Unchanged(before, after, files[k])
    {
      if files[k] in before {
        assert FileOf(before, files[k]) == FileOf(after, files[k]);
        ReadByParts(before, files[k], after, files[k]);
      }
    }
  }

  /** Entries whose files inherit nothing indirectly are compared completely. */
  lemma OneLevel(before: Files, after: Files, o: Entry, n: Entry)
    requires !IsDifferent(before, after, o, n)
    requires forall f :: f in FileOf(after, n.confFile).inherits ==> f in before && FileOf(after, f).inherits == []
    ensures SameRead(before, o.confFile, after, n.confFile)
  {
    hide SameRead;
    NotDifferent(before, after, o, n);
  }

  /** A change two levels down is missed. */
  lemma MissedChange() returns (before: Files, after: Files, e: Entry)
    ensures !IsDifferent(before, after, e, e) && !SameRead(before, e.confFile, after, e.confFile)
  {
    before := map["a" := File(0, ["b"]), "b" := File(0, ["c"]), "c" := File(1, [])];
    after := map["a" := File(0, ["b"]), "b" := File(0, ["c"]), "c" := File(2, [])];
    e := Entry("port", true, 0, 0, 0, "a", []);
    assert TreeTo(before, "c", 1) != TreeTo(after, "c", 1);
    assert FileOf(after, "b").inherits[0] == "c";
    ReadByParts(before, "b", after, "b");
    ReadByParts(before, "a", after, "a");
    assert FileOf(after, "a").inherits[0] == "b";
  }
}
