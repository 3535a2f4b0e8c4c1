/**
 Cleanup of a repository's `target` directory: a hard-link-aware scan predicts how
 many bytes deleting the candidate entries frees, and the deletion follows.
 */
module BuildArtifacts {
  import opened FileSystem
  import opened Text

  // ----- Names and categories -----

  const PRESERVED: set<string> := {"CACHEDIR.TAG", "evidence", "release-bundle"}

  const AUTOMATIC: set<string> :=
    {"cargo-timings", "integration-trace.log", "package", "release-download", "tmp"}

  const REGENERABLE: set<string> :=
    {".rustc_info.json", "cargo-timings", "debug", "doc", "integration-trace.log",
     "llvm-cov-target", "package", "release", "release-download", "tmp"}

  predicate TripleWord(word: string) {
    word != "" && forall c :: c in word ==> IsDigit(c) || IsUpper(c) || IsLower(c) || c == '_'
  }

  /** Three or more words joined by single dashes, as in a Rust target triple. */
  predicate TargetTriple(name: string) {
    var words := Split(name, '-');
    |words| >= 3 && forall w :: w in words ==> TripleWord(w)
  }

  predicate IsRegenerable(name: string) {
    && (name in REGENERABLE || StartsWith(name, "ci-run-") || TargetTriple(name))
    && name !in PRESERVED
  }

  predicate IsAutomatic(name: string) {
    name in AUTOMATIC || StartsWith(name, "ci-run-")
  }

  datatype Category = Candidate | Preserved | Skipped

  predicate IsCandidate(name: string, automaticOnly: bool) {
    if automaticOnly then IsAutomatic(name) else IsRegenerable(name)
  }

  function CategoryOf(name: string, automaticOnly: bool): Category {
    if IsCandidate(name, automaticOnly) then Candidate
    else if name in PRESERVED then Preserved
    else Skipped
  }

  /** Automatic cleanup only ever takes what full cleanup would take, and neither
      takes a preserved entry. */
  lemma AutomaticIsRegenerable(name: string)
    ensures IsAutomatic(name) ==> IsRegenerable(name)
    ensures name in PRESERVED ==> forall a :: CategoryOf(name, a) == Preserved
  {
    if StartsWith(name, "ci-run-") {
      assert name[0] == 'c' && name[1] == 'i';
      assert "CACHEDIR.TAG"[0] != 'c' && "evidence"[0] != 'c' && "release-bundle"[0] != 'c';
    }
    assert "ci-run-"[0] == 'c';
    if name in PRESERVED {
      assert name[0] != 'c';
    }
  }

  predicate Word(word: string) {
    word != "" && forall c :: c in word ==> c in ALPHANUMERIC || c == '_'
  }

  /** Three or more words of letters, digits and underscores, joined by dashes. */
  ghost predicate JoinedWords(name: string) {
    exists words: seq<string> :: |words| >= 3 && (forall w :: w in words ==> Word(w)) && Join(words, '-') == name
  }

  lemma TripleWordIsWord(word: string)
    ensures TripleWord(word) <==> Word(word)
    ensures Word(word) ==> '-' !in word
  {
    forall c | c in word
      ensures IsDigit(c) || IsUpper(c) || IsLower(c) <==> c in ALPHANUMERIC
    {
      AlphanumericListed(c);
    }
    AlphanumericListed('-');
  }

  /** A target triple is words joined by dashes. */
  lemma TripleIsJoinedWords(name: string)
    ensures TargetTriple(name) <==> JoinedWords(name)
  {
    if TargetTriple(name) {
      var words := Split(name, '-');
      forall w | w in words
        ensures Word(w)
      {
        TripleWordIsWord(w);
      }
      JoinSplit(name, '-');
    }
    if JoinedWords(name) {
      var words: seq<string> :| |words| >= 3 && (forall w :: w in words ==> Word(w)) && Join(words, '-') == name;
      forall w | w in words
        ensures TripleWord(w) && '-' !in w
      {
        TripleWordIsWord(w);
      }
      SplitJoin(words, '-');
    }
  }

  lemma {:induction false} OneWordIsNoTriple(name: string)
    requires '-' !in name
    ensures !TargetTriple(name)
  {
    SplitAt(name, '-', "");
  }

  lemma {:induction false} TwoWordsAreNoTriple(first: string, second: string)
    requires '-' !in first && '-' !in second
    ensures !TargetTriple(first + ['-'] + second)
  {
    SplitAt(first, '-', second);
    SplitAt(second, '-', "");
  }

  lemma PreservedIsNoTriple(name: string)
    requires name in PRESERVED
    ensures !TargetTriple(name)
  {
    if name == "release-bundle" {
      TwoWordsAreNoTriple("release", "bundle");
      assert "release" + ['-'] + "bundle" == "release-bundle";
    } else {
      OneWordIsNoTriple(name);
    }
  }

  lemma RegenerableListed(name: string)
    ensures name in REGENERABLE <==>
              name in [".rustc_info.json", "cargo-timings", "debug", "doc", "integration-trace.log",
                       "llvm-cov-target", "package", "release", "release-download", "tmp"]
  {
  }

  lemma RegenerableIsNotPreserved(name: string)
    requires name in REGENERABLE
    ensures name !in PRESERVED
  {
    assert |"CACHEDIR.TAG"| == 12 && |"evidence"| == 8 && |"release-bundle"| == 14;
  }

  /** Full cleanup takes exactly the ten listed names, run directories and target triples. */
  lemma FullCleanupTakes(name: string)
    ensures CategoryOf(name, false) == Candidate <==>
              || name in [".rustc_info.json", "cargo-timings", "debug", "doc", "integration-trace.log",
                          "llvm-cov-target", "package", "release", "release-download", "tmp"]
              || "ci-run-" <= name
              || JoinedWords(name)
  {
    TripleIsJoinedWords(name);
    RegenerableListed(name);
    if name in PRESERVED {
      PreservedIsNoTriple(name);
      RunDirectoryIsNotPreserved(name);
    }
    if name in REGENERABLE {
      RegenerableIsNotPreserved(name);
    }
  }

  lemma RunDirectoryIsNotPreserved(name: string)
    requires name in PRESERVED
    ensures !("ci-run-" <= name)
  {
    assert "CACHEDIR.TAG"[0] != 'c' && "evidence"[0] != 'c' && "release-bundle"[0] != 'c';
    assert "ci-run-"[0] == 'c';
  }

  /** Automatic cleanup takes exactly the five listed names and run directories. */
  lemma AutomaticCleanupTakes(name: string)
    ensures CategoryOf(name, true) == Candidate <==>
              || name in ["cargo-timings", "integration-trace.log", "package", "release-download", "tmp"]
              || "ci-run-" <= name
  {
  }

  /** And both preserve exactly three entries. */
  lemma CleanupPreserves(name: string, automaticOnly: bool)
    ensures CategoryOf(name, automaticOnly) == Preserved <==> name in ["CACHEDIR.TAG", "evidence", "release-bundle"]
  {
    AutomaticIsRegenerable(name);
  }

  // ----- The inode table -----

  datatype Entry = Entry(name: string, tree: Tree)

  datatype InodeUsage = InodeUsage(
    bytes: nat, linkCount: nat, directory: bool, occurrences: nat, categories: set<Category>)

  type Table = map<Ino, InodeUsage>

  /** The table repeats the metadata of the inodes it lists. */
  predicate Consistent(table: Table, meta: map<Ino, Meta>) {
    forall i :: i in table ==>
                  && i in meta
                  && table[i].bytes == meta[i].bytes
                  && table[i].linkCount == meta[i].linkCount
                  && table[i].directory == meta[i].directory
  }

  ghost function Occurrences(table: Table, i: Ino): nat {
    if i in table then table[i].occurrences else 0
  }

  ghost function Categories(table: Table, i: Ino): set<Category> {
    if i in table then table[i].categories else {}
  }

  /** For inode `i`, `after` is `before` with every name of `names` recorded under `category`. */
  ghost predicate AddsAt(before: Table, after: Table, names: multiset<Ino>, category: Category, i: Ino) {
    && (i in after <==> i in before || i in names)
    && Occurrences(after, i) == Occurrences(before, i) + names[i]
    && Categories(after, i) == Categories(before, i) + (if i in names then {category} else {})
  }

  ghost predicate Adds(before: Table, after: Table, names: multiset<Ino>, category: Category) {
    forall i: Ino :: AddsAt(before, after, names, category, i)
  }

  lemma AddsCompose(m0: Table, m1: Table, m2: Table, a: multiset<Ino>, b: multiset<Ino>, c: Category)
    requires Adds(m0, m1, a, c) && Adds(m1, m2, b, c)
    ensures Adds(m0, m2, a + b, c)
  {
    forall i: Ino
      ensures AddsAt(m0, m2, a + b, c, i)
    {
      assert AddsAt(m0, m1, a, c, i) && AddsAt(m1, m2, b, c, i);
    }
  }

  lemma {:induction false} ForestPrefix(ts: seq<Tree>, k: nat)
    requires k < |ts|
    ensures ForestNames(ts[..k + 1]) == ForestNames(ts[..k]) + Names(ts[k])
    ensures ForestScannable(ts) ==> Scannable(ts[k])
    ensures ForestScannable(ts[..k + 1]) <==> ForestScannable(ts[..k]) && Scannable(ts[k])
  {
    if k == 0 {
      assert ts[..1] == [ts[0]] && ts[..1][1..] == [] && ts[..0] == [];
    } else {
      ForestPrefix(ts[1..], k - 1);
      assert ts[..k + 1][1..] == ts[1..][..k] && ts[..k][1..] == ts[1..][..k - 1];
    }
  }

  lemma {:induction false} ForestMember(ts: seq<Tree>, k: nat, meta: map<Ino, Meta>)
    requires k < |ts| && ForestTyped(ts, meta)
    ensures Typed(ts[k], meta)
  {
    if k > 0 {
      ForestMember(ts[1..], k - 1, meta);
    }
  }

  /** The mutable dictionary the scan fills. */
  class Scan {
    const meta: map<Ino, Meta>
    var inodes: Table

    constructor (meta: map<Ino, Meta>)
      ensures this.meta == meta && inodes == map[]
    {
      this.meta := meta;
      inodes := map[];
    }

    /** Records one name of inode `i`, reading its metadata the first time it is seen. */
    method Record(i: Ino, category: Category) returns (directory: bool)
      requires i in meta && Consistent(inodes, meta)
      modifies this
      ensures Consistent(inodes, meta)
      ensures directory == meta[i].directory
      ensures Adds(old(inodes), inodes, multiset{i}, category)
    {
      var usage :=
        if i in inodes then inodes[i]
        else InodeUsage(meta[i].bytes, meta[i].linkCount, meta[i].directory, 0, {});
      usage := usage.(occurrences := usage.occurrences + 1, categories := usage.categories + {category});
      inodes := inodes[i := usage];
      directory := usage.directory;
      forall j: Ino
        ensures AddsAt(old(inodes), inodes, multiset{i}, category, j)
      {
      }
    }

    /** Records every name below `t`; fails exactly when some `lstat` or `scandir` fails. */
    method ScanPath(t: Tree, category: Category) returns (ok: bool)
      requires Typed(t, meta) && Consistent(inodes, meta)
      modifies this
      ensures Consistent(inodes, meta)
      ensures ok <==> Scannable(t)
      ensures ok ==> Adds(old(inodes), inodes, multiset(Names(t)), category)
      decreases t
    {
      if t.Unreadable? {
        return false;
      }
      var directory := Record(t.ino, category);
      if !directory {
        return true;
      }
      if !t.listable {
        return false;
      }
      ghost var done := multiset{t.ino};
      var k := 0;
      while k < |t.children|
        invariant 0 <= k <= |t.children|
        invariant Consistent(inodes, meta)
        invariant ForestScannable(t.children[..k])
        invariant done == multiset{t.ino} + multiset(ForestNames(t.children[..k]))
        invariant Adds(old(inodes), inodes, done, category)
      {
        ForestMember(t.children, k, meta);
        ForestPrefix(t.children, k);
        ghost var before := inodes;
        ok := ScanPath(t.children[k], category);
        if !ok {
          return false;
        }
        AddsCompose(old(inodes), before, inodes, done, multiset(Names(t.children[k])), category);
        done := done + multiset(Names(t.children[k]));
        k := k + 1;
      }
      assert t.children[..k] == t.children;
      return true;
    }
  }

  // ----- The prediction and its exactness -----

  /** The names of the entries that fall in one category. */
  ghost function NamesIn(entries: seq<Entry>, category: Category, automaticOnly: bool): multiset<Ino> {
    if entries == [] then multiset{} else
      var n := |entries| - 1;
      var before := NamesIn(entries[..n], category, automaticOnly);
      if CategoryOf(entries[n].name, automaticOnly) == category
      then before + multiset(Names(entries[n].tree)) else before
  }

  /** All names below `target`. */
  ghost function AllNames(entries: seq<Entry>): multiset<Ino> {
    if entries == [] then multiset{} else
      var n := |entries| - 1;
      AllNames(entries[..n]) + multiset(Names(entries[n].tree))
  }

  /** The unlink operations that delete the candidate entries, in order. */
  ghost function CandidateUnlinks(entries: seq<Entry>, automaticOnly: bool): seq<Ino> {
    if entries == [] then [] else
      var n := |entries| - 1;
      var before := CandidateUnlinks(entries[..n], automaticOnly);
      if IsCandidate(entries[n].name, automaticOnly) then before + Unlinks(entries[n].tree) else before
  }

  lemma {:induction false} CandidateUnlinksAreNames(entries: seq<Entry>, automaticOnly: bool)
    ensures multiset(CandidateUnlinks(entries, automaticOnly)) == NamesIn(entries, Candidate, automaticOnly)
  {
    if entries != [] {
      var n := |entries| - 1;
      CandidateUnlinksAreNames(entries[..n], automaticOnly);
      UnlinksArePermutedNames(entries[n].tree);
    }
  }

  lemma {:induction false} CategoriesPartitionNames(entries: seq<Entry>, automaticOnly: bool, i: Ino)
    ensures AllNames(entries)[i] == NamesIn(entries, Candidate, automaticOnly)[i]
                                    + NamesIn(entries, Preserved, automaticOnly)[i]
                                    + NamesIn(entries, Skipped, automaticOnly)[i]
  {
    if entries != [] {
      CategoriesPartitionNames(entries[..|entries| - 1], automaticOnly, i);
    }
  }

  /** `names` counts every name on the file system, inside `target` and outside. A
      directory has one name; any other inode has as many as its link count says. */
  ghost predicate WellFormed(entries: seq<Entry>, names: multiset<Ino>, meta: map<Ino, Meta>) {
    && Inodes(names) <= meta.Keys
    && (forall k :: 0 <= k < |entries| ==> Typed(entries[k].tree, meta))
    && AllNames(entries) <= names
    && (forall i :: i in AllNames(entries) ==>
                      names[i] == if meta[i].directory then 1 else meta[i].linkCount)
  }

  ghost predicate ScannedAt(entries: seq<Entry>, automaticOnly: bool, table: Table, i: Ino) {
    && (i in table <==> i in AllNames(entries))
    && Occurrences(table, i) == AllNames(entries)[i]
    && (forall c: Category :: c in Categories(table, i) <==> i in NamesIn(entries, c, automaticOnly))
  }

  /** The table a successful scan of `entries` leaves behind. */
  ghost predicate Scanned(entries: seq<Entry>, automaticOnly: bool, table: Table) {
    forall i: Ino :: ScannedAt(entries, automaticOnly, table, i)
  }

  lemma {:induction false} ScanExtendsAt(entries: seq<Entry>, automaticOnly: bool, before: Table, after: Table, i: Ino)
    requires entries != []
    requires var n := |entries| - 1;
             && ScannedAt(entries[..n], automaticOnly, before, i)
             && AddsAt(before, after, multiset(Names(entries[n].tree)), CategoryOf(entries[n].name, automaticOnly), i)
    ensures ScannedAt(entries, automaticOnly, after, i)
  {
    var n := |entries| - 1;
    var added := multiset(Names(entries[n].tree));
    assert AllNames(entries) == AllNames(entries[..n]) + added;
    forall c: Category
      ensures c in Categories(after, i) <==> i in NamesIn(entries, c, automaticOnly)
    {
      assert c in Categories(before, i) <==> i in NamesIn(entries[..n], c, automaticOnly);
    }
  }

  lemma ScanExtends(entries: seq<Entry>, automaticOnly: bool, before: Table, after: Table)
    requires entries != []
    requires var n := |entries| - 1;
             && Scanned(entries[..n], automaticOnly, before)
             && Adds(before, after, multiset(Names(entries[n].tree)), CategoryOf(entries[n].name, automaticOnly))
    ensures Scanned(entries, automaticOnly, after)
  {
    var n := |entries| - 1;
    forall i: Ino
      ensures ScannedAt(entries, automaticOnly, after, i)
    {
      assert ScannedAt(entries[..n], automaticOnly, before, i);
      assert AddsAt(before, after, multiset(Names(entries[n].tree)), CategoryOf(entries[n].name, automaticOnly), i);
      ScanExtendsAt(entries, automaticOnly, before, after, i);
    }
  }

  /** The inodes whose bytes the summary calls reclaimable. */
  function Reclaimable(table: Table): set<Ino> {
    set i | i in table && table[i].categories == {Candidate}
            && (table[i].directory || table[i].occurrences >= table[i].linkCount)
  }

  lemma {:induction false} ReclaimableAt(entries: seq<Entry>, names: multiset<Ino>, meta: map<Ino, Meta>,
                      automaticOnly: bool, table: Table, i: Ino)
    requires WellFormed(entries, names, meta) && Consistent(table, meta)
    requires ScannedAt(entries, automaticOnly, table, i)
    ensures i in Reclaimable(table) <==> 0 < names[i] <= NamesIn(entries, Candidate, automaticOnly)[i]
  {
    CategoriesPartitionNames(entries, automaticOnly, i);
    var all := AllNames(entries);
    assert all[i] <= names[i];
    if i in table {
      var cats := table[i].categories;
      assert cats == Categories(table, i);
      assert cats == {Candidate} <==> Candidate in cats && Preserved !in cats && Skipped !in cats;
    }
  }

  /** The inodes counted as reclaimable are those that lose their last name when the
      candidates go. */
  lemma ReclaimableLosesLastName(entries: seq<Entry>, names: multiset<Ino>, meta: map<Ino, Meta>,
                                 automaticOnly: bool, table: Table)
    requires WellFormed(entries, names, meta)
    requires Consistent(table, meta) && Scanned(entries, automaticOnly, table)
    ensures Reclaimable(table) == Inodes(names) - Inodes(names - NamesIn(entries, Candidate, automaticOnly))
    ensures table.Keys == Inodes(AllNames(entries)) <= Inodes(names)
  {
    var candidates := NamesIn(entries, Candidate, automaticOnly);
    var lost := Inodes(names) - Inodes(names - candidates);
    forall i: Ino
      ensures i in Reclaimable(table) <==> i in lost
    {
      assert ScannedAt(entries, automaticOnly, table, i);
      ReclaimableAt(entries, names, meta, automaticOnly, table, i);
    }
    forall i: Ino
      ensures i in table.Keys <==> i in AllNames(entries)
    {
      assert ScannedAt(entries, automaticOnly, table, i);
    }
  }

  /** The prediction is exact: the reclaimable bytes are what deletion frees, and the
      rest of the scanned bytes is what survives it. */
  lemma PredictionExact(entries: seq<Entry>, names: multiset<Ino>, meta: map<Ino, Meta>,
                        automaticOnly: bool, table: Table)
    requires WellFormed(entries, names, meta)
    requires Consistent(table, meta) && Scanned(entries, automaticOnly, table)
    ensures var rest := names - NamesIn(entries, Candidate, automaticOnly);
            && Reclaimable(table) <= table.Keys <= meta.Keys
            && Bytes(Reclaimable(table), meta) == Usage(names, meta) - Usage(rest, meta)
            && Bytes(table.Keys, meta) - Bytes(Reclaimable(table), meta) == Bytes(table.Keys * Inodes(rest), meta)
  {
    var candidates := NamesIn(entries, Candidate, automaticOnly);
    ReclaimableLosesLastName(entries, names, meta, automaticOnly, table);
    RemovalFrees(names, candidates, meta);
    BytesSplit(table.Keys, Reclaimable(table), meta);
    assert table.Keys - Reclaimable(table) == table.Keys * Inodes(names - candidates);
  }

  /** However far deletion got, it unlinked candidate names only and freed no more
      than predicted; every name of a preserved or skipped entry is still there. */
  lemma PartialDeletion(entries: seq<Entry>, names: multiset<Ino>, meta: map<Ino, Meta>,
                        automaticOnly: bool, unlinked: seq<Ino>)
    requires WellFormed(entries, names, meta)
    requires unlinked <= CandidateUnlinks(entries, automaticOnly)
    ensures Usage(names, meta) - Usage(names - multiset(unlinked), meta)
         <= Usage(names, meta) - Usage(names - NamesIn(entries, Candidate, automaticOnly), meta)
    ensures forall i :: NamesIn(entries, Preserved, automaticOnly)[i] + NamesIn(entries, Skipped, automaticOnly)[i]
                     <= (names - multiset(unlinked))[i]
  {
    var all := CandidateUnlinks(entries, automaticOnly);
    CandidateUnlinksAreNames(entries, automaticOnly);
    assert all == unlinked + all[|unlinked|..];
    assert multiset(unlinked) <= multiset(all);
    var after := names - multiset(unlinked);
    var end := names - multiset(all);
    BytesSplit(Inodes(after), Inodes(end), meta);
    forall i: Ino
      ensures NamesIn(entries, Preserved, automaticOnly)[i] + NamesIn(entries, Skipped, automaticOnly)[i] <= after[i]
    {
      CategoriesPartitionNames(entries, automaticOnly, i);
      assert AllNames(entries)[i] <= names[i];
    }
  }

  lemma {:induction false} AutomaticNamesAreFewer(entries: seq<Entry>, i: Ino)
    ensures NamesIn(entries, Candidate, true)[i] <= NamesIn(entries, Candidate, false)[i]
  {
    if entries != [] {
      AutomaticNamesAreFewer(entries[..|entries| - 1], i);
      AutomaticIsRegenerable(entries[|entries| - 1].name);
    }
  }

  /** Automatic cleanup never frees more than full cleanup would. */
  lemma AutomaticFreesNoMore(entries: seq<Entry>, names: multiset<Ino>, meta: map<Ino, Meta>)
    requires Inodes(names) <= meta.Keys
    ensures Usage(names, meta) - Usage(names - NamesIn(entries, Candidate, true), meta)
         <= Usage(names, meta) - Usage(names - NamesIn(entries, Candidate, false), meta)
  {
    var few, many := NamesIn(entries, Candidate, true), NamesIn(entries, Candidate, false);
    forall i: Ino
      ensures few[i] <= many[i]
    {
      AutomaticNamesAreFewer(entries, i);
    }
    BytesSplit(Inodes(names - few), Inodes(names - many), meta);
  }
}
