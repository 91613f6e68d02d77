// Normalising the scene directories of a two-sided component project
// (backend/form_component_editor_impl.py:1705-1862).
//
// A scene directory is a map from file names to contents.
module SceneDirs {
  import opened Basics

  type Files = map<string, string>

  // One side and one scene: "form-component" and "FormComponent" on the web
  // side; `pascal` turns a semantic into the middle of a variable name.
  datatype Naming = Naming(filePrefix: string, classPrefix: string, scene: string, scenePascal: string, listName: string)

  datatype Keep = Keep(semantic: string, file: string)

  const INDEX := "index.js"
  const SCAFFOLD_SEMANTICS := {"custom", "demo", "dev", "component"}

  predicate EndsWith(s: string, t: string) {
    |t| <= |s| && s[|s| - |t|..] == t
  }

  predicate IsVue(name: string) {
    EndsWith(name, ".vue")
  }

  // The semantic a file name carries, if it has the expected shape.
  function ExtractSemantic(nm: Naming, name: string): Option<string> {
    var suffix, prefix := "-" + nm.scene + ".vue", nm.filePrefix + "-";
    if !EndsWith(name, suffix) || !(prefix <= name) then None
    else if |prefix| + |suffix| >= |name| then None
    else Some(name[|prefix|..|name| - |suffix|])
  }

  function FileNameOf(nm: Naming, semantic: string): string {
    nm.filePrefix + "-" + semantic + "-" + nm.scene + ".vue"
  }

  // A semantic has one file name: at most one file for each of them.
  lemma SemanticNamesOneFile(nm: Naming, name: string, semantic: string)
    ensures ExtractSemantic(nm, name) == Some(semantic) <==> semantic != "" && name == FileNameOf(nm, semantic)
  {
    hide ExtractSemantic, FileNameOf;
    ExtractedName(nm, name);
    OwnNameExtracts(nm, semantic);
  }

  lemma ExtractedName(nm: Naming, name: string)
    ensures var sem := ExtractSemantic(nm, name);
            sem.Some? ==> sem.value != "" && name == FileNameOf(nm, sem.value)
  {
    var suffix, prefix := "-" + nm.scene + ".vue", nm.filePrefix + "-";
    var sem := ExtractSemantic(nm, name);
    if sem.Some? {
      FileNameParts(nm, prefix, sem.value, suffix);
      hide FileNameOf;
      Between(name, |prefix|, |name| - |suffix|);
    }
  }

  lemma OwnNameExtracts(nm: Naming, semantic: string)
    ensures semantic != "" ==> ExtractSemantic(nm, FileNameOf(nm, semantic)) == Some(semantic)
  {
    hide FileNameOf;
    var suffix, prefix := "-" + nm.scene + ".vue", nm.filePrefix + "-";
    FileNameParts(nm, prefix, semantic, suffix);
    Middle(prefix, semantic, suffix);
  }

  lemma FileNameParts(nm: Naming, prefix: string, semantic: string, suffix: string)
    requires prefix == nm.filePrefix + "-" && suffix == "-" + nm.scene + ".vue"
    ensures FileNameOf(nm, semantic) == prefix + semantic + suffix
  {
    assert prefix + semantic + "-" + nm.scene + ".vue" == prefix + semantic + ("-" + nm.scene + ".vue");
  }

  lemma Between(s: string, n: nat, m: nat)
    requires n <= m <= |s|
    ensures s == s[..n] + s[n..m] + s[m..]
  {
  }

  lemma Middle(a: string, b: string, c: string)
    ensures var s := a + b + c;
            s[..|a|] == a && s[|a|..|s| - |c|] == b && s[|s| - |c|..] == c
  {
  }

  datatype Kind = Other | Wanted(semantic: string) | Stray

  function Classify(nm: Naming, auth: set<string>, name: string): Kind {
    var sem := ExtractSemantic(nm, name);
    if sem.None? then Other
    else if sem.value in auth then Wanted(sem.value)
    else if sem.value in SCAFFOLD_SEMANTICS then Other
    else Stray
  }

  function SetOf(s: seq<string>): set<string> {
    set x | x in s
  }

  // ----- what is kept -----

  // The authoritative semantics that have their file, in order.
  function Present(nm: Naming, files: Files, auth: seq<string>): seq<Keep> {
    if auth == [] then []
    else
      var a := auth[|auth| - 1];
      Present(nm, files, auth[..|auth| - 1])
      + (if a != "" && FileNameOf(nm, a) in files then [Keep(a, FileNameOf(nm, a))] else [])
  }

  ghost predicate IsStray(nm: Naming, files: Files, auth: seq<string>, name: string) {
    name in files && IsVue(name) && Classify(nm, SetOf(auth), name).Stray?
  }

  ghost predicate IsOnlyStray(nm: Naming, files: Files, auth: seq<string>, name: string) {
    IsStray(nm, files, auth, name) && forall other :: IsStray(nm, files, auth, other) ==> other == name
  }

  // A single stray file stands in for a single missing component; otherwise
  // only well-named files are kept.
  ghost predicate IsKept(nm: Naming, files: Files, auth: seq<string>, kept: seq<Keep>) {
    if Present(nm, files, auth) != [] then kept == Present(nm, files, auth)
    else if |auth| == 1 && exists x :: IsOnlyStray(nm, files, auth, x) then
      |kept| == 1 && kept[0].semantic == auth[0] && IsOnlyStray(nm, files, auth, kept[0].file)
    else kept == []
  }

  function KeptFiles(kept: seq<Keep>): set<string> {
    set k | k in kept :: k.file
  }

  // ----- the rebuilt index -----

  function VarName(nm: Naming, pascal: string -> string, k: Keep): string {
    nm.classPrefix + pascal(k.semantic) + nm.scenePascal
  }

  function ImportLines(nm: Naming, pascal: string -> string, kept: seq<Keep>): string {
    if kept == [] then ""
    else ImportLines(nm, pascal, kept[..|kept| - 1])
         + "import " + VarName(nm, pascal, kept[|kept| - 1]) + " from './" + kept[|kept| - 1].file + "'\n"
  }

  function VarList(nm: Naming, pascal: string -> string, kept: seq<Keep>): string {
    if kept == [] then ""
    else if |kept| == 1 then VarName(nm, pascal, kept[0])
    else VarList(nm, pascal, kept[..|kept| - 1]) + ",\n  " + VarName(nm, pascal, kept[|kept| - 1])
  }

  function Line(s: string, rest: string): string {
    s + "\n" + rest
  }

  // The import lines, an empty line, and the exported list.
  function IndexText(nm: Naming, pascal: string -> string, kept: seq<Keep>): string {
    ImportLines(nm, pascal, kept)
    + Line("", Line("const " + nm.listName + " = [", ListText(nm, pascal, kept)))
  }

  function ListText(nm: Naming, pascal: string -> string, kept: seq<Keep>): string {
    Line("  " + VarList(nm, pascal, kept), Line("]", Line("", Line("export default " + nm.listName, ""))))
  }

  // ----- the whole effect on one directory -----

  ghost function Swept(files: Files, kept: seq<Keep>, undeletable: set<string>): Files {
    map n | n in files && (IsVue(n) ==> n in KeptFiles(kept) || n in undeletable) :: files[n]
  }

  ghost function Normalized(nm: Naming, pascal: string -> string, files: Files, kept: seq<Keep>, undeletable: set<string>): Files {
    if kept == [] then files else Swept(files, kept, undeletable)[INDEX := IndexText(nm, pascal, kept)]
  }

  ghost predicate IsListing(files: Files, listing: seq<string>) {
    && (forall i, j :: 0 <= i < j < |listing| ==> listing[i] != listing[j])
    && forall n :: n in listing <==> n in files && IsVue(n)
  }

  // The file at a scene directory that could not be deleted stays.
  class SceneDir {
    var files: Files
    const undeletable: set<string>

    constructor (files: Files, undeletable: set<string>)
      ensures this.files == files && this.undeletable == undeletable
    {
      this.files, this.undeletable := files, undeletable;
    }

    // Deletes the names that are not kept; deletions may fail one by one.
    method DeleteAll(names: seq<string>, keepNames: set<string>, changed: seq<string>) returns (changed': seq<string>)
      modifies this
      ensures files == map n | n in old(files) && (n in names && n !in keepNames ==> n in undeletable) :: old(files)[n]
      ensures forall n :: n in changed' <==> n in changed || (n in names && n in old(files) && n !in files)
    {
      changed' := changed;
      for k := 0 to |names|
        invariant files == map n | n in old(files) && (n in names[..k] && n !in keepNames ==> n in undeletable) :: old(files)[n]
        invariant forall n :: n in changed' <==> n in changed || (n in names[..k] && n in old(files) && n !in files)
      {
        assert names[..k + 1] == names[..k] + [names[k]];
        var name := names[k];
        if name !in keepNames && name in files && name !in undeletable {
          files := files - {name};
          changed' := changed' + [name];
        }
      }
      assert names[..|names|] == names;
    }

    // Sorts the listed files into buckets.
    method Sort(nm: Naming, auth: seq<string>, listing: seq<string>)
      returns (bucket: map<string, seq<string>>, strays: seq<string>, others: seq<string>)
      requires IsListing(files, listing)
      ensures AreBuckets(nm, auth, listing, bucket)
      ensures HasKind(nm, auth, listing, Stray, strays) && HasKind(nm, auth, listing, Other, others)
    {
      hide AreBuckets, HasKind, Classify;
      bucket := map sem | sem in auth :: [];
      strays, others := [], [];
      NothingSorted(nm, auth, bucket);
      for k := 0 to |listing|
        invariant AreBuckets(nm, auth, listing[..k], bucket)
        invariant HasKind(nm, auth, listing[..k], Stray, strays) && HasKind(nm, auth, listing[..k], Other, others)
      {
        var name := listing[k];
        assert listing[..k + 1] == listing[..k] + [name];
        var kind := Classify(nm, SetOf(auth), name);
        BucketStep(nm, auth, listing[..k], bucket, name);
        KindStep(nm, auth, listing[..k], Stray, strays, name);
        KindStep(nm, auth, listing[..k], Other, others, name);
        match kind {
          case Other => others := others + [name];
          case Stray => strays := strays + [name];
          case Wanted(sem) => bucket := bucket[sem := bucket[sem] + [name]];
        }
      }
      assert listing[..|listing|] == listing;
    }

    // Decides which files stay; the rest of the listed files is in the other
    // results, except that a single stray that stays is taken out of `strays`.
    method Choose(nm: Naming, auth: seq<string>, listing: seq<string>)
      returns (kept: seq<Keep>, bucket: map<string, seq<string>>, strays: seq<string>, others: seq<string>)
      requires IsListing(files, listing)
      ensures IsKept(nm, files, auth, kept)
      ensures AreBuckets(nm, auth, listing, bucket)
      ensures kept != [] ==>
                files - Doomed(files, others + strays, KeptFiles(kept), undeletable) == Swept(files, kept, undeletable)
    {
      hide Present, IsKept, AreBuckets, HasKind, Swept, Doomed;
      kept := [];
      bucket, strays, others := Sort(nm, auth, listing);
      PresentNothing(nm, files);
      assert auth[..0] == [];
      for k := 0 to |auth|
        invariant kept == Present(nm, files, auth[..k])
      {
        PresentStep(nm, files, auth, listing, bucket, k);
        if bucket[auth[k]] != [] {
          kept := kept + [Keep(auth[k], bucket[auth[k]][0])];
        }
      }
      assert auth[..|auth|] == auth;
      ghost var allStrays := strays;
      if kept == [] && |auth| == 1 && |strays| == 1 {
        kept := [Keep(auth[0], strays[0])];
        strays := [];
      }
      KeptIsKept(nm, files, auth, listing, allStrays, kept);
      if kept != [] {
        AllSwept(nm, files, auth, listing, allStrays, strays, others, kept, undeletable);
      }
    }

    method Sweep(nm: Naming, auth: seq<string>, ghost listing: seq<string>, bucket: map<string, seq<string>>,
                 strays: seq<string>, others: seq<string>, keepNames: set<string>)
      returns (changed: seq<string>)
      requires AreBuckets(nm, auth, listing, bucket)
      modifies this
      ensures files == old(files) - Doomed(old(files), others + strays, keepNames, undeletable)
      ensures forall n :: n in changed <==> n in old(files) && n !in files
    {
      hide AreBuckets;
      changed := DeleteAll(others, keepNames, []);
      changed := DeleteAll(strays, keepNames, changed);
      assert files == old(files) - Doomed(old(files), others + strays, keepNames, undeletable);
      ghost var swept := files;
      for k := 0 to |auth|
        invariant files == swept
        invariant forall n :: n in changed <==> n in old(files) && n !in files
      {
        NoExtras(nm, auth, listing, bucket, auth[k]);
        if bucket[auth[k]] != [] {
          changed := DeleteAll(bucket[auth[k]][1..], keepNames, changed);
        }
      }
    }

    // One scene directory. `kept` is what it decided to keep.
    method NormalizeScene(nm: Naming, pascal: string -> string, semantics: seq<string>, listing: seq<string>)
      returns (changed: seq<string>, kept: seq<Keep>)
      requires IsListing(files, listing)
      modifies this
      ensures IsKept(nm, old(files), NonEmpty(semantics), kept)
      ensures files == Normalized(nm, pascal, old(files), kept, undeletable)
      ensures forall n :: n in changed <==> Changed(old(files), files, n)
    {
      hide IsKept, AreBuckets, IndexText, Swept, Doomed, NonEmpty;
      var auth := NonEmpty(semantics);
      var bucket, strays, others;
      kept, bucket, strays, others := Choose(nm, auth, listing);
      if kept == [] {
        return [], kept;
      }
      changed := Sweep(nm, auth, listing, bucket, strays, others, KeptFiles(kept));
      IndexNotSwept(old(files), kept, undeletable);
      var newIndex := IndexText(nm, pascal, kept);
      if INDEX !in files || files[INDEX] != newIndex {
        files := files[INDEX := newIndex];
        changed := changed + [INDEX];
      }
    }
  }

  lemma IndexNotSwept(files: Files, kept: seq<Keep>, undeletable: set<string>)
    ensures INDEX in files <==> INDEX in Swept(files, kept, undeletable)
    ensures forall n :: n in Swept(files, kept, undeletable) ==> n in files && Swept(files, kept, undeletable)[n] == files[n]
  {
    assert INDEX[|INDEX| - 4..] == "x.js";
  }

  function NonEmpty(ss: seq<string>): seq<string> {
    if ss == [] then []
    else NonEmpty(ss[..|ss| - 1]) + (if ss[|ss| - 1] != "" then [ss[|ss| - 1]] else [])
  }

  // A file was deleted, created or rewritten.
  ghost predicate Changed(before: Files, after: Files, n: string) {
    || (n in before && n !in after)
    || (n in after && (n !in before || before[n] != after[n]))
  }

  ghost function Doomed(files: Files, names: seq<string>, keepNames: set<string>, undeletable: set<string>): set<string> {
    set n | n in names && n in files && n !in keepNames && n !in undeletable
  }

  lemma PresentNothing(nm: Naming, files: Files)
    ensures Present(nm, files, []) == []
  {
  }

  lemma PresentStep(nm: Naming, files: Files, auth: seq<string>, listing: seq<string>, bucket: map<string, seq<string>>, k: nat)
    requires IsListing(files, listing) && AreBuckets(nm, auth, listing, bucket) && k < |auth|
    ensures auth[k] in bucket
    ensures Present(nm, files, auth[..k + 1]) ==
            Present(nm, files, auth[..k])
            + (if bucket[auth[k]] != [] then [Keep(auth[k], bucket[auth[k]][0])] else [])
  {
    hide FileNameOf, IsVue;
    FileNamesAreVue(nm);
    assert auth[..k + 1][..k] == auth[..k];
    assert IsVue(FileNameOf(nm, auth[k]));
  }

  lemma NoExtras(nm: Naming, auth: seq<string>, listing: seq<string>, bucket: map<string, seq<string>>, sem: string)
    requires AreBuckets(nm, auth, listing, bucket) && sem in auth
    ensures sem in bucket && (bucket[sem] != [] ==> bucket[sem][1..] == [])
  {
  }

  lemma KeptIsKept(nm: Naming, files: Files, auth: seq<string>, listing: seq<string>, strays: seq<string>, kept: seq<Keep>)
    requires IsListing(files, listing) && HasKind(nm, auth, listing, Stray, strays)
    requires if Present(nm, files, auth) == [] && |auth| == 1 && |strays| == 1
             then kept == [Keep(auth[0], strays[0])]
             else kept == Present(nm, files, auth)
    ensures IsKept(nm, files, auth, kept)
  {
    hide Present, Classify, IsVue;
    assert forall n :: n in strays <==> IsStray(nm, files, auth, n);
    if |strays| == 1 {
      assert strays[0] in strays;
      assert IsOnlyStray(nm, files, auth, strays[0]);
    }
    if exists x :: IsOnlyStray(nm, files, auth, x) {
      var x :| IsOnlyStray(nm, files, auth, x);
      assert x in strays;
      forall i | 0 <= i < |strays|
        ensures strays[i] == x
      {
        assert strays[i] in strays;
      }
      assert strays[0] == strays[|strays| - 1];
    }
  }

  // A listed file that is neither kept nor in a deletion list does not exist.
  lemma AllSwept(nm: Naming, files: Files, auth: seq<string>, listing: seq<string>, allStrays: seq<string>,
                 strays: seq<string>, others: seq<string>, kept: seq<Keep>, undeletable: set<string>)
    requires IsListing(files, listing)
    requires HasKind(nm, auth, listing, Stray, allStrays) && HasKind(nm, auth, listing, Other, others)
    requires if Present(nm, files, auth) == [] && |auth| == 1 && |allStrays| == 1
             then kept == [Keep(auth[0], allStrays[0])] && strays == []
             else kept == Present(nm, files, auth) && strays == allStrays
    requires kept != []
    ensures files - Doomed(files, others + strays, KeptFiles(kept), undeletable) == Swept(files, kept, undeletable)
  {
    hide Present, Classify, IsVue, FileNameOf;
    var doomed := Doomed(files, others + strays, KeptFiles(kept), undeletable);
    forall n | n in files
      ensures n in doomed <==> IsVue(n) && n !in KeptFiles(kept) && n !in undeletable
    {
      if IsVue(n) && n !in KeptFiles(kept) {
        assert n in listing;
        ClassifyCases(nm, auth, n);
        var kind := Classify(nm, SetOf(auth), n);
        if kind.Wanted? {
          PresentHas(nm, files, auth, kind.semantic);
        }
        assert kind.Other? || kind.Stray?;
        assert n in others + strays;
      }
    }
  }

  lemma {:induction false} PresentHas(nm: Naming, files: Files, auth: seq<string>, sem: string)
    ensures Keep(sem, FileNameOf(nm, sem)) in Present(nm, files, auth) <==>
            sem in auth && sem != "" && FileNameOf(nm, sem) in files
    decreases |auth|
  {
    hide FileNameOf;
    if auth != [] {
      var n := |auth| - 1;
      PresentHas(nm, files, auth[..n], sem);
      assert auth == auth[..n] + [auth[n]];
    }
  }

  // Among the seen files, each wanted semantic has its one file or none.
  ghost predicate AreBuckets(nm: Naming, auth: seq<string>, seen: seq<string>, bucket: map<string, seq<string>>) {
    && (forall sem :: sem in bucket <==> sem in auth)
    && forall sem :: sem in bucket ==>
         bucket[sem] == if sem != "" && FileNameOf(nm, sem) in seen then [FileNameOf(nm, sem)] else []
  }

  ghost predicate HasKind(nm: Naming, auth: seq<string>, seen: seq<string>, kind: Kind, names: seq<string>) {
    && (forall n :: n in names <==> n in seen && Classify(nm, SetOf(auth), n) == kind)
    && forall i, j :: 0 <= i < j < |names| ==> names[i] != names[j]
  }

  lemma NothingSorted(nm: Naming, auth: seq<string>, bucket: map<string, seq<string>>)
    requires bucket == map sem | sem in auth :: []
    ensures AreBuckets(nm, auth, [], bucket)
    ensures HasKind(nm, auth, [], Stray, []) && HasKind(nm, auth, [], Other, [])
  {
  }

  lemma BucketStep(nm: Naming, auth: seq<string>, seen: seq<string>, bucket: map<string, seq<string>>, name: string)
    requires AreBuckets(nm, auth, seen, bucket) && name !in seen
    ensures match Classify(nm, SetOf(auth), name)
            case Wanted(sem) => sem in bucket && AreBuckets(nm, auth, seen + [name], bucket[sem := bucket[sem] + [name]])
            case _ => AreBuckets(nm, auth, seen + [name], bucket)
  {
    hide FileNameOf, Classify, SetOf;
    ClassifyCases(nm, auth, name);
  }

  lemma KindStep(nm: Naming, auth: seq<string>, seen: seq<string>, kind: Kind, names: seq<string>, name: string)
    requires HasKind(nm, auth, seen, kind, names) && name !in seen
    ensures HasKind(nm, auth, seen + [name], kind,
                    if Classify(nm, SetOf(auth), name) == kind then names + [name] else names)
  {
    hide Classify, SetOf;
  }

  lemma ClassifyCases(nm: Naming, auth: seq<string>, name: string)
    ensures forall sem :: sem in auth ==>
              (Classify(nm, SetOf(auth), name) == Wanted(sem) <==> sem != "" && name == FileNameOf(nm, sem))
    ensures Classify(nm, SetOf(auth), name).Wanted? ==> Classify(nm, SetOf(auth), name).semantic in auth
  {
    hide FileNameOf, ExtractSemantic;
    forall sem | sem in auth
      ensures Classify(nm, SetOf(auth), name) == Wanted(sem) <==> sem != "" && name == FileNameOf(nm, sem)
    {
      SemanticNamesOneFile(nm, name, sem);
    }
  }

  lemma FileNamesAreVue(nm: Naming)
    ensures forall sem :: IsVue(FileNameOf(nm, sem))
  {
    forall sem
      ensures IsVue(FileNameOf(nm, sem))
    {
      var name := FileNameOf(nm, sem);
      assert name == (nm.filePrefix + "-" + sem + "-" + nm.scene) + ".vue";
    }
  }

  // ----- what the normalisation guarantees -----

  ghost predicate Distinct(auth: seq<string>) {
    forall i, j :: 0 <= i < j < |auth| ==> auth[i] != auth[j]
  }

  // One file for each semantic and one semantic for each file.
  ghost predicate AllDifferent(kept: seq<Keep>) {
    forall i, j :: 0 <= i < j < |kept| ==> kept[i].semantic != kept[j].semantic && kept[i].file != kept[j].file
  }

  lemma {:induction false} PresentDistinct(nm: Naming, files: Files, auth: seq<string>)
    requires Distinct(auth)
    ensures AllDifferent(Present(nm, files, auth))
    ensures forall k :: k in Present(nm, files, auth) ==> k.semantic in auth && k.semantic != "" && k.file == FileNameOf(nm, k.semantic)
    decreases |auth|
  {
    hide FileNameOf;
    if auth != [] {
      var n := |auth| - 1;
      PresentDistinct(nm, files, auth[..n]);
      var before := Present(nm, files, auth[..n]);
      forall i | 0 <= i < |before|
        ensures before[i].semantic != auth[n] && before[i].file != FileNameOf(nm, auth[n])
      {
        assert before[i] in before && before[i].semantic in auth[..n];
        NamesDiffer(nm, before[i].semantic, auth[n]);
      }
      assert auth == auth[..n] + [auth[n]];
      AllDifferentSnoc(before, Keep(auth[n], FileNameOf(nm, auth[n])));
    }
  }

  lemma AllDifferentSnoc(kept: seq<Keep>, k: Keep)
    requires AllDifferent(kept)
    requires forall i :: 0 <= i < |kept| ==> kept[i].semantic != k.semantic && kept[i].file != k.file
    ensures AllDifferent(kept + [k]) && AllDifferent(kept + [])
  {
    assert kept + [] == kept;
  }

  lemma NamesDiffer(nm: Naming, a: string, b: string)
    ensures a != "" && FileNameOf(nm, a) == FileNameOf(nm, b) ==> a == b
  {
    if a != "" && FileNameOf(nm, a) == FileNameOf(nm, b) {
      var prefix, suffix := nm.filePrefix + "-", "-" + nm.scene + ".vue";
      assert FileNameOf(nm, a) == prefix + a + suffix && FileNameOf(nm, b) == prefix + b + suffix;
      assert (prefix + a + suffix)[|prefix|..|prefix| + |a|] == a;
      assert (prefix + b + suffix)[|prefix|..|prefix| + |b|] == b;
    }
  }

  // Kept files exist, and with distinct semantics each semantic has one file
  // and each file one semantic.
  lemma KeptFilesExist(nm: Naming, files: Files, auth: seq<string>, kept: seq<Keep>)
    requires IsKept(nm, files, auth, kept)
    ensures forall k :: k in kept ==> k.semantic in auth && k.file in files && IsVue(k.file)
    ensures Distinct(auth) ==> AllDifferent(kept)
  {
    hide FileNameOf, IsVue, Classify;
    if Present(nm, files, auth) != [] {
      forall k | k in kept
        ensures k.semantic in auth && k.file in files && IsVue(k.file)
      {
        PresentShape(nm, files, auth, k);
        PresentHas(nm, files, auth, k.semantic);
        FileNamesAreVue(nm);
      }
      if Distinct(auth) {
        PresentDistinct(nm, files, auth);
        assert kept == Present(nm, files, auth);
      }
    }
  }

  lemma {:induction false} PresentShape(nm: Naming, files: Files, auth: seq<string>, k: Keep)
    requires k in Present(nm, files, auth)
    ensures k.file == FileNameOf(nm, k.semantic)
    decreases |auth|
  {
    hide FileNameOf;
    if auth != [] && k in Present(nm, files, auth[..|auth| - 1]) {
      PresentShape(nm, files, auth[..|auth| - 1], k);
    }
  }

  // What is kept is a function of the directory and the semantics.
  lemma KeptUnique(nm: Naming, files: Files, auth: seq<string>, a: seq<Keep>, b: seq<Keep>)
    requires IsKept(nm, files, auth, a) && IsKept(nm, files, auth, b)
    ensures a == b
  {
    hide Present, Classify, IsVue, IsStray;
    if Present(nm, files, auth) == [] && |a| == 1 {
      assert a == [Keep(auth[0], a[0].file)] && b == [Keep(auth[0], b[0].file)];
    }
  }

  // Nothing is deleted or written unless a component file is kept; kept files
  // stay with their content, files that are no components stay except the
  // index, and the component files left are the kept ones and those that
  // could not be deleted.
  lemma NormalizationIsSafe(nm: Naming, pascal: string -> string, files: Files, auth: seq<string>,
                            kept: seq<Keep>, undeletable: set<string>)
    requires IsKept(nm, files, auth, kept)
    ensures var after := Normalized(nm, pascal, files, kept, undeletable);
            && (after != files ==> kept != [])
            && (forall k :: k in kept ==> k.file in files && k.file in after && after[k.file] == files[k.file])
            && (forall n :: n in files && !IsVue(n) && n != INDEX ==> n in after && after[n] == files[n])
            && (kept != [] ==> forall n :: n in after && IsVue(n) <==>
                                 n in files && IsVue(n) && (n in KeptFiles(kept) || n in undeletable))
            && (kept != [] ==> INDEX in after && after[INDEX] == IndexText(nm, pascal, kept))
  {
    hide IsKept, IndexText;
    KeptFilesExist(nm, files, auth, kept);
    assert INDEX[|INDEX| - 4..] == "x.js";
  }

  // ----- reading the index back -----

  function FirstBreak(s: string): (i: nat)
    ensures i <= |s| && (i < |s| ==> s[i] == '\n') && forall j :: 0 <= j < i ==> s[j] != '\n'
  {
    if s == "" || s[0] == '\n' then 0 else FirstBreak(s[1..]) + 1
  }

  function Lines(s: string): seq<string>
    decreases |s|
  {
    var i := FirstBreak(s);
    if i == |s| then [s] else [s[..i]] + Lines(s[i + 1..])
  }

  function LastSlash(s: string): (i: int)
    ensures -1 <= i < |s|
  {
    if s == "" then -1 else if s[|s| - 1] == '/' then |s| - 1 else LastSlash(s[..|s| - 1])
  }

  // What a line of the form `import NAME from './FILE'` declares.
  datatype Import = Import(name: string, file: string)

  const FROM := " from '."

  function ReadLine(line: string): Option<Import> {
    var slash := LastSlash(line);
    if "import " <= line && 7 + |FROM| <= slash < |line| - 1 && line[|line| - 1] == '\''
       && line[slash - |FROM|..slash] == FROM
    then Some(Import(line[7..slash - |FROM|], line[slash + 1..|line| - 1]))
    else None
  }

  function ReadLines(lines: seq<string>): seq<Import> {
    if lines == [] then []
    else (if ReadLine(lines[0]).Some? then [ReadLine(lines[0]).value] else []) + ReadLines(lines[1..])
  }

  // The imports of a source text, line by line.
  function ReadImports(text: string): seq<Import> {
    ReadLines(Lines(text))
  }

  ghost predicate NoBreak(s: string) {
    forall i :: 0 <= i < |s| ==> s[i] != '\n'
  }

  // File names have no slash; none of the names has a line break.
  ghost predicate WellNamed(nm: Naming, pascal: string -> string, kept: seq<Keep>) {
    && NoBreak(nm.listName)
    && forall k :: k in kept ==> NoBreak(VarName(nm, pascal, k)) && NoBreak(k.file) && '/' !in k.file
  }

  lemma FirstBreakIs(line: string, rest: string)
    requires NoBreak(line)
    ensures FirstBreak(line + "\n" + rest) == |line|
  {
    var s := line + "\n" + rest;
    var i := FirstBreak(s);
    assert s[|line|] == '\n';
    assert forall j :: 0 <= j < |line| ==> s[j] == line[j];
  }

  lemma ReadFirst(line: string, rest: string)
    requires NoBreak(line)
    ensures ReadImports(Line(line, rest)) == (if ReadLine(line).Some? then [ReadLine(line).value] else []) + ReadImports(rest)
  {
    hide ReadLine, FirstBreak, NoBreak;
    var s := line + "\n" + rest;
    FirstBreakIs(line, rest);
    assert s[..|line|] == line && s[|line| + 1..] == rest;
    assert Lines(s) == [line] + Lines(rest);
    assert Lines(s)[1..] == Lines(rest);
  }

  lemma {:induction false} LastSlashIs(a: string, file: string)
    requires '/' !in file
    ensures LastSlash(a + "/" + file) == |a|
    decreases |file|
  {
    var s := a + "/" + file;
    if file == "" {
      assert s == a + "/";
    } else {
      assert s[..|s| - 1] == a + "/" + file[..|file| - 1];
      LastSlashIs(a, file[..|file| - 1]);
      assert s[|s| - 1] == file[|file| - 1];
    }
  }

  function ImportLine(name: string, file: string): string {
    "import " + name + FROM + "/" + file + "'"
  }

  lemma ReadImportLine(name: string, file: string)
    requires '/' !in file
    ensures ReadLine(ImportLine(name, file)) == Some(Import(name, file))
  {
    var a := "import " + name + FROM;
    var line := ImportLine(name, file);
    LastSlashIs(a, file + "'");
    assert line == a + "/" + (file + "'");
    ImportLineParts(name, file, a, line);
    hide LastSlash;
  }

  lemma ImportLineParts(name: string, file: string, a: string, line: string)
    requires a == "import " + name + FROM && line == ImportLine(name, file)
    ensures |FROM| == 8 && |a| == 15 + |name| && |line| == |a| + |file| + 2 && "import " <= line
    ensures line[7..|a| - |FROM|] == name && line[|a| - |FROM|..|a|] == FROM
    ensures line[|a| + 1..|line| - 1] == file && line[|line| - 1] == '\''
  {
    assert line == a + "/" + (file + "'");
    assert a == ("import " + name) + FROM;
  }

  function ImportsOf(nm: Naming, pascal: string -> string, kept: seq<Keep>): seq<Import> {
    seq(|kept|, i requires 0 <= i < |kept| => Import(VarName(nm, pascal, kept[i]), kept[i].file))
  }

  lemma {:induction false} ReadImportLines(nm: Naming, pascal: string -> string, kept: seq<Keep>, rest: string)
    requires forall k :: k in kept ==> NoBreak(VarName(nm, pascal, k)) && NoBreak(k.file) && '/' !in k.file
    ensures ReadImports(ImportLines(nm, pascal, kept) + rest) == ImportsOf(nm, pascal, kept) + ReadImports(rest)
    decreases |kept|
  {
    hide VarName, ReadImports, NoBreak;
    if kept == [] {
      assert ImportLines(nm, pascal, kept) + rest == rest;
      assert ImportsOf(nm, pascal, kept) == [];
    } else {
      var n := |kept| - 1;
      var k := kept[n];
      var line := ImportLine(VarName(nm, pascal, k), k.file);
      assert k in kept;
      ImportLineOf(nm, pascal, kept, n, rest);
      ReadImportLines(nm, pascal, kept[..n], Line(line, rest));
      ImportLinePlain(VarName(nm, pascal, k), k.file);
      ReadFirst(line, rest);
      ReadImportLine(VarName(nm, pascal, k), k.file);
      var front := ImportsOf(nm, pascal, kept[..n]);
      assert ImportsOf(nm, pascal, kept) == front + [Import(VarName(nm, pascal, k), k.file)];
      assert front + ([Import(VarName(nm, pascal, k), k.file)] + ReadImports(rest)) == ImportsOf(nm, pascal, kept) + ReadImports(rest);
    }
  }

  lemma ImportLineOf(nm: Naming, pascal: string -> string, kept: seq<Keep>, n: nat, rest: string)
    requires |kept| == n + 1
    ensures ImportLines(nm, pascal, kept) + rest
            == ImportLines(nm, pascal, kept[..n]) + Line(ImportLine(VarName(nm, pascal, kept[n]), kept[n].file), rest)
  {
    hide VarName;
    var front := ImportLines(nm, pascal, kept[..n]);
    var name, file := VarName(nm, pascal, kept[n]), kept[n].file;
    assert ImportLines(nm, pascal, kept) == front + "import " + name + " from './" + file + "'\n";
    assert FROM + "/" == " from './";
    assert ImportLine(name, file) == "import " + name + (FROM + "/") + file + "'";
    assert "'\n" == "'" + "\n";
  }

  lemma ImportLinePlain(name: string, file: string)
    requires NoBreak(name) && NoBreak(file)
    ensures NoBreak(ImportLine(name, file))
  {
    PlainJoin("import ", name);
    PlainJoin("import " + name, FROM);
    PlainJoin("import " + name + FROM, "/");
    PlainJoin("import " + name + FROM + "/", file);
    PlainJoin("import " + name + FROM + "/" + file, "'");
  }

  lemma PlainJoin(a: string, b: string)
    ensures NoBreak(a) && NoBreak(b) ==> NoBreak(a + b)
  {
  }

  // The lines of the exported list import nothing.
  lemma {:induction false} ReadVarList(nm: Naming, pascal: string -> string, kept: seq<Keep>, end: string, rest: string)
    requires NoBreak(end) && forall k :: k in kept ==> NoBreak(VarName(nm, pascal, k))
    ensures ReadImports(Line("  " + VarList(nm, pascal, kept) + end, rest)) == ReadImports(rest)
    decreases |kept|
  {
    hide VarName, ReadImports, NoBreak, ReadLine, Line;
    if |kept| <= 1 {
      var body := VarList(nm, pascal, kept);
      assert NoBreak(body) by {
        if kept == [] {
          EmptyPlain();
        } else {
          assert kept[0] in kept;
        }
      }
      IndentedReadsNothing(body + end);
      PlainJoin(body, end);
      IndentedPlain(body + end);
      ReadFirst("  " + (body + end), rest);
      assert "  " + body + end == "  " + (body + end);
    } else {
      var n := |kept| - 1;
      var name := VarName(nm, pascal, kept[n]);
      assert kept[n] in kept;
      EmptyPlain();
      ReadVarList(nm, pascal, kept[..n], ",", Line("  " + name + end, rest));
      IndentedReadsNothing(name + end);
      PlainJoin(name, end);
      IndentedPlain(name + end);
      ReadFirst("  " + (name + end), rest);
      assert "  " + name + end == "  " + (name + end);
      VarListStep(nm, pascal, kept, n, end, rest);
    }
  }

  lemma VarListStep(nm: Naming, pascal: string -> string, kept: seq<Keep>, n: nat, end: string, rest: string)
    requires |kept| == n + 1 && n > 0
    ensures Line("  " + VarList(nm, pascal, kept) + end, rest)
            == Line("  " + VarList(nm, pascal, kept[..n]) + ",", Line("  " + VarName(nm, pascal, kept[n]) + end, rest))
  {
    hide VarName;
    assert ",\n  " == "," + "\n" + "  ";
  }

  lemma EmptyPlain()
    ensures NoBreak("") && NoBreak(",") && NoBreak("  ")
  {
  }

  lemma IndentedPlain(s: string)
    ensures NoBreak(s) ==> NoBreak("  " + s)
  {
  }

  lemma IndentedReadsNothing(s: string)
    ensures ReadLine("  " + s).None?
  {
    assert ("  " + s)[0] == ' ';
  }

  // The index declares exactly the kept files, in order, under their names.
  lemma IndexReadsBack(nm: Naming, pascal: string -> string, kept: seq<Keep>)
    requires WellNamed(nm, pascal, kept)
    ensures ReadImports(IndexText(nm, pascal, kept)) == ImportsOf(nm, pascal, kept)
  {
    hide VarName, ReadImports, NoBreak, ReadLine, ImportLines, VarList, Line;
    var head := "const " + nm.listName + " = [";
    var last := "export default " + nm.listName;
    var tail := Line("]", Line("", Line(last, "")));
    var list := ListText(nm, pascal, kept);
    ReadImportLines(nm, pascal, kept, Line("", Line(head, list)));
    OtherLines(nm.listName, head, last);
    ReadFirst("", Line(head, list));
    ReadFirst(head, list);
    ReadVarList(nm, pascal, kept, "", tail);
    assert "  " + VarList(nm, pascal, kept) + "" == "  " + VarList(nm, pascal, kept);
    ReadFirst("]", Line("", Line(last, "")));
    ReadFirst("", Line(last, ""));
    ReadFirst(last, "");
    assert ImportsOf(nm, pascal, kept) + [] == ImportsOf(nm, pascal, kept);
  }

  lemma OtherLines(listName: string, head: string, last: string)
    requires NoBreak(listName) && head == "const " + listName + " = [" && last == "export default " + listName
    ensures NoBreak(head) && NoBreak(last) && NoBreak("") && NoBreak("]")
    ensures ReadLine(head).None? && ReadLine(last).None? && ReadLine("").None? && ReadLine("]").None?
    ensures ReadImports("") == []
  {
    assert head[0] == 'c' && last[0] == 'e';
    assert Lines("") == [""] && [""][1..] == [];
    hide LastSlash;
  }

  // When every deletion succeeds, the files that the written index imports, as
  // read back from its text, are exactly the component files that are left, each
  // once.
  lemma IndexImportsWhatIsLeft(nm: Naming, pascal: string -> string, files: Files, auth: seq<string>, kept: seq<Keep>)
    requires IsKept(nm, files, auth, kept) && kept != [] && Distinct(auth) && WellNamed(nm, pascal, kept)
    ensures var after := Normalized(nm, pascal, files, kept, {});
            && INDEX in after
            && var imports := ReadImports(after[INDEX]);
               && (forall n :: n in after && IsVue(n) <==> exists i :: 0 <= i < |imports| && imports[i].file == n)
               && forall i, j :: 0 <= i < j < |imports| ==> imports[i].file != imports[j].file
  {
    hide IsKept, IndexText, Normalized, ReadImports, WellNamed, VarName;
    KeptFilesExist(nm, files, auth, kept);
    NormalizationIsSafe(nm, pascal, files, auth, kept, {});
    IndexReadsBack(nm, pascal, kept);
    var imports := ImportsOf(nm, pascal, kept);
    forall n | n in KeptFiles(kept)
      ensures exists i :: 0 <= i < |imports| && imports[i].file == n
    {
      var k :| k in kept && k.file == n;
      var i :| 0 <= i < |kept| && kept[i] == k;
      assert imports[i].file == n;
    }
    forall i | 0 <= i < |imports|
      ensures imports[i].file in KeptFiles(kept)
    {
      assert kept[i] in kept;
    }
  }

  // ----- the declared names -----

  // The parts of a semantic between its dashes.
  function Parts(s: string): seq<string> {
    if s == "" then [""]
    else if s[|s| - 1] == '-' then Parts(s[..|s| - 1]) + [""]
    else
      var front := Parts(s[..|s| - 1]);
      if front == [] then [[s[|s| - 1]]] else front[..|front| - 1] + [front[|front| - 1] + [s[|s| - 1]]]
  }

  function NonEmptyParts(parts: seq<string>): seq<string> {
    if parts == [] then [] else (if parts[0] != "" then [parts[0]] else []) + NonEmptyParts(parts[1..])
  }

  // The Pascal form: the non-empty parts, each with its first letter in upper
  // and the others in lower case.
  function Pascal(capitalize: string -> string, s: string): string {
    PascalOf(capitalize, NonEmptyParts(Parts(s)))
  }

  function PascalOf(capitalize: string -> string, parts: seq<string>): string {
    if parts == [] then "" else capitalize(parts[0]) + PascalOf(capitalize, parts[1..])
  }

  // The names that the index declares are distinct exactly when no two kept
  // semantics have the same Pascal form.
  lemma DeclaredNamesDistinct(nm: Naming, pascal: string -> string, kept: seq<Keep>)
    requires WellNamed(nm, pascal, kept)
    ensures var imports := ReadImports(IndexText(nm, pascal, kept));
            (forall i, j :: 0 <= i < j < |imports| ==> imports[i].name != imports[j].name)
            <==> forall i, j :: 0 <= i < j < |kept| ==> pascal(kept[i].semantic) != pascal(kept[j].semantic)
  {
    hide IndexText, ReadImports, WellNamed, VarName;
    IndexReadsBack(nm, pascal, kept);
    var imports := ImportsOf(nm, pascal, kept);
    forall i, j | 0 <= i < j < |kept|
      ensures imports[i].name == imports[j].name <==> pascal(kept[i].semantic) == pascal(kept[j].semantic)
    {
      SameVarName(nm, pascal, kept[i], kept[j]);
    }
  }

  lemma SameVarName(nm: Naming, pascal: string -> string, k: Keep, l: Keep)
    ensures VarName(nm, pascal, k) == VarName(nm, pascal, l) <==> pascal(k.semantic) == pascal(l.semantic)
  {
    var p, q := pascal(k.semantic), pascal(l.semantic);
    var n := |nm.classPrefix|;
    assert VarName(nm, pascal, k)[n..n + |p|] == p;
    assert VarName(nm, pascal, l)[n..n + |q|] == q;
  }

  lemma PartsOfNothing()
    ensures Parts("") == [""]
  {
  }

  lemma PartsDash(s: string)
    ensures Parts(s + "-") == Parts(s) + [""]
  {
    assert (s + "-")[..|s|] == s;
  }

  lemma PartsLetter(s: string, c: char)
    requires c != '-' && Parts(s) != []
    ensures var front := Parts(s);
            Parts(s + [c]) == front[..|front| - 1] + [front[|front| - 1] + [c]]
  {
    assert (s + [c])[..|s|] == s;
  }

  lemma PartsOfExamples()
    ensures Parts("a-b") == ["a", "b"] && Parts("a--b") == ["a", "", "b"]
  {
    hide Parts;
    assert "a" + "-" == "a-" && "a-" + "-" == "a--";
    PartsOfNothing();
    PartsLetter("", 'a');
    PartsDash("a");
    PartsLetter("a-", 'b');
    PartsDash("a-");
    PartsLetter("a--", 'b');
    assert "" + ['a'] == "a" && "" + ['b'] == "b" && "a-" + ['b'] == "a-b" && "a--" + ['b'] == "a--b";
    assert Parts("a") == [] + ["a"];
    assert Parts("a-b") == ["a"] + ["b"];
    assert Parts("a--b") == ["a", ""] + ["b"];
  }

  // Distinct semantics can have one Pascal form.
  lemma DashesAreForgotten(capitalize: string -> string)
    ensures Pascal(capitalize, "a-b") == Pascal(capitalize, "a--b")
  {
    hide Parts, PascalOf;
    PartsOfExamples();
    assert ["a", "b"][1..] == ["b"] && ["a", "", "b"][1..] == ["", "b"] && ["", "b"][1..] == ["b"];
    assert NonEmptyParts(["a", "b"]) == ["a"] + NonEmptyParts(["b"]);
    assert NonEmptyParts(["", "b"]) == NonEmptyParts(["b"]);
  }

  // So a directory with the files of both keeps both, and the written index
  // declares one name twice.
  lemma OneNameIsDeclaredTwice(nm: Naming, capitalize: string -> string, files: Files)
    requires FileNameOf(nm, "a-b") in files && FileNameOf(nm, "a--b") in files
    ensures var auth := ["a-b", "a--b"];
            var kept := [Keep("a-b", FileNameOf(nm, "a-b")), Keep("a--b", FileNameOf(nm, "a--b"))];
            var pascal := s => Pascal(capitalize, s);
            && Distinct(auth) && IsKept(nm, files, auth, kept) && kept[0].file != kept[1].file
            && (WellNamed(nm, pascal, kept) ==>
                  var after := Normalized(nm, pascal, files, kept, {});
                  && INDEX in after
                  && var imports := ReadImports(after[INDEX]);
                     |imports| == 2 && imports[0].name == imports[1].name && imports[0].file != imports[1].file)
  {
    hide FileNameOf, IndexText, ReadImports, WellNamed, Pascal, VarName, Swept;
    var auth := ["a-b", "a--b"];
    var kept := [Keep("a-b", FileNameOf(nm, "a-b")), Keep("a--b", FileNameOf(nm, "a--b"))];
    var pascal := s => Pascal(capitalize, s);
    assert auth[..1] == ["a-b"] && auth[..1][..0] == [];
    assert Present(nm, files, auth[..1][..0]) == [];
    assert Present(nm, files, auth[..1]) == [kept[0]];
    assert [kept[0]] + [kept[1]] == kept;
    assert |"a-b"| != |"a--b"|;
    SemanticNamesOneFile(nm, kept[0].file, "a-b");
    SemanticNamesOneFile(nm, kept[0].file, "a--b");
    DashesAreForgotten(capitalize);
    if WellNamed(nm, pascal, kept) {
      IndexReadsBack(nm, pascal, kept);
      SameVarName(nm, pascal, kept[0], kept[1]);
    }
  }

  lemma {:induction false} PresentSame(nm: Naming, files: Files, after: Files, auth: seq<string>)
    requires forall a :: a in auth && a != "" ==> (FileNameOf(nm, a) in files <==> FileNameOf(nm, a) in after)
    ensures Present(nm, files, auth) == Present(nm, after, auth)
    decreases |auth|
  {
    hide FileNameOf;
    if auth != [] {
      PresentSame(nm, files, after, auth[..|auth| - 1]);
    }
  }

  // A second run keeps the same files, deletes nothing and writes nothing,
  // even when some deletions failed.
  lemma SecondRunChangesNothing(nm: Naming, pascal: string -> string, files: Files, auth: seq<string>,
                                kept: seq<Keep>, undeletable: set<string>, kept2: seq<Keep>)
    requires IsKept(nm, files, auth, kept)
    requires IsKept(nm, Normalized(nm, pascal, files, kept, undeletable), auth, kept2)
    ensures kept2 == kept
    ensures var after := Normalized(nm, pascal, files, kept, undeletable);
            Normalized(nm, pascal, after, kept2, undeletable) == after
  {
    hide IsKept, IndexText, Present, Normalized, IsVue;
    var after := Normalized(nm, pascal, files, kept, undeletable);
    NormalizationIsSafe(nm, pascal, files, auth, kept, undeletable);
    if kept != [] {
      KeptAgain(nm, files, after, auth, kept);
      KeptUnique(nm, after, auth, kept, kept2);
      SweptAgain(nm, pascal, after, kept, undeletable);
    } else {
      KeptUnique(nm, files, auth, kept, kept2);
      NothingKept(nm, pascal, files, undeletable);
    }
  }

  lemma SweptAgain(nm: Naming, pascal: string -> string, after: Files, kept: seq<Keep>, undeletable: set<string>)
    requires kept != [] && INDEX in after && after[INDEX] == IndexText(nm, pascal, kept)
    requires forall n :: n in after && IsVue(n) ==> n in KeptFiles(kept) || n in undeletable
    ensures Normalized(nm, pascal, after, kept, undeletable) == after
  {
    hide IndexText, IsVue;
    assert Swept(after, kept, undeletable) == after;
  }

  lemma NothingKept(nm: Naming, pascal: string -> string, files: Files, undeletable: set<string>)
    ensures Normalized(nm, pascal, files, [], undeletable) == files
  {
  }

  lemma KeptAgain(nm: Naming, files: Files, after: Files, auth: seq<string>, kept: seq<Keep>)
    requires IsKept(nm, files, auth, kept) && kept != []
    requires forall n :: n in after && IsVue(n) ==> n in files
    requires forall k :: k in kept ==> k.file in after
    ensures IsKept(nm, after, auth, kept)
  {
    hide Classify, FileNameOf, IsVue;
    FileNamesAreVue(nm);
    forall a | a in auth
      ensures a != "" ==> (FileNameOf(nm, a) in files <==> FileNameOf(nm, a) in after)
    {
      PresentHas(nm, files, auth, a);
    }
    PresentSame(nm, files, after, auth);
    if Present(nm, files, auth) == [] {
      var x := kept[0].file;
      assert kept[0] in kept;
      assert IsStray(nm, after, auth, x);
      forall other | IsStray(nm, after, auth, other)
        ensures other == x
      {
        assert IsStray(nm, files, auth, other);
      }
      assert IsOnlyStray(nm, after, auth, x);
    }
  }

  // ----- which files are kept -----

  // The file carries a semantic that is neither wanted nor one of the scaffold.
  ghost predicate IsMisnamed(nm: Naming, files: Files, wanted: string, name: string) {
    && name in files && IsVue(name)
    && exists sem :: sem != "" && name == FileNameOf(nm, sem)
                     && sem != wanted && sem !in {"custom", "demo", "dev", "component"}
  }

  lemma ExtractSays(nm: Naming, name: string, sem: string)
    requires sem != "" && name == FileNameOf(nm, sem)
    ensures ExtractSemantic(nm, name) == Some(sem)
  {
    SemanticNamesOneFile(nm, name, sem);
  }

  lemma StraySays(nm: Naming, files: Files, wanted: string, name: string)
    ensures IsStray(nm, files, [wanted], name) <==> IsMisnamed(nm, files, wanted, name)
  {
    hide ExtractSemantic, FileNameOf, IsVue;
    var sem := ExtractSemantic(nm, name);
    if sem.Some? {
      SemanticNamesOneFile(nm, name, sem.value);
    }
    if IsMisnamed(nm, files, wanted, name) {
      var other :| other != "" && name == FileNameOf(nm, other) && other != wanted && other !in {"custom", "demo", "dev", "component"};
      SemanticNamesOneFile(nm, name, other);
    }
    assert SetOf([wanted]) == {wanted};
  }

  lemma {:induction false} PresentInOrder(nm: Naming, files: Files, a: seq<string>, b: seq<string>)
    ensures Present(nm, files, a + b) == Present(nm, files, a) + Present(nm, files, b)
    decreases |b|
  {
    hide FileNameOf;
    if b == [] {
      assert a + b == a;
    } else {
      PresentInOrder(nm, files, a, b[..|b| - 1]);
      assert (a + b)[..|a + b| - 1] == a + b[..|b| - 1];
    }
  }

  // Kept is the file of each semantic that has one, in the order of the
  // semantics; with none there, and only one semantic, a single misnamed file
  // stands in for its file; otherwise nothing is kept.
  lemma KeptSays(nm: Naming, files: Files, auth: seq<string>, kept: seq<Keep>)
    requires IsKept(nm, files, auth, kept)
    ensures forall a :: a in auth && a != "" && FileNameOf(nm, a) in files ==> Keep(a, FileNameOf(nm, a)) in kept
    ensures (forall a :: a in auth && a != "" ==> FileNameOf(nm, a) !in files) ==>
              if |auth| == 1 && exists x :: IsOnlyMisnamed(nm, files, auth[0], x)
              then |kept| == 1 && kept[0].semantic == auth[0] && IsOnlyMisnamed(nm, files, auth[0], kept[0].file)
              else kept == []
  {
    hide FileNameOf, IsStray, IsMisnamed;
    forall a | a in auth && a != "" && FileNameOf(nm, a) in files
      ensures Keep(a, FileNameOf(nm, a)) in kept
    {
      PresentHolds(nm, files, auth, a);
    }
    if forall a :: a in auth && a != "" ==> FileNameOf(nm, a) !in files {
      NonePresent(nm, files, auth);
      if |auth| == 1 {
        assert auth == [auth[0]];
        forall x
          ensures IsStray(nm, files, auth, x) <==> IsMisnamed(nm, files, auth[0], x)
        {
          StraySays(nm, files, auth[0], x);
        }
        forall x
          ensures IsOnlyStray(nm, files, auth, x) <==> IsOnlyMisnamed(nm, files, auth[0], x)
        {
        }
      }
    }
  }

  ghost predicate IsOnlyMisnamed(nm: Naming, files: Files, wanted: string, name: string) {
    IsMisnamed(nm, files, wanted, name) && forall other :: IsMisnamed(nm, files, wanted, other) ==> other == name
  }

  lemma {:induction false} PresentHolds(nm: Naming, files: Files, auth: seq<string>, a: string)
    requires a in auth && a != "" && FileNameOf(nm, a) in files
    ensures Keep(a, FileNameOf(nm, a)) in Present(nm, files, auth)
    decreases |auth|
  {
    hide FileNameOf;
    var n := |auth| - 1;
    assert auth == auth[..n] + [auth[n]];
    if auth[n] != a {
      PresentHolds(nm, files, auth[..n], a);
    }
  }

  lemma {:induction false} NonePresent(nm: Naming, files: Files, auth: seq<string>)
    requires forall a :: a in auth && a != "" ==> FileNameOf(nm, a) !in files
    ensures Present(nm, files, auth) == []
    decreases |auth|
  {
    hide FileNameOf;
    if auth != [] {
      var n := |auth| - 1;
      assert auth[n] in auth && forall a :: a in auth[..n] ==> a in auth;
      NonePresent(nm, files, auth[..n]);
    }
  }

  // Empty semantics are left out, the others stay in order.
  lemma {:induction false} NonEmptyInOrder(a: seq<string>, b: seq<string>)
    ensures NonEmpty(a + b) == NonEmpty(a) + NonEmpty(b)
    decreases |b|
  {
    if b == [] {
      assert a + b == a;
    } else {
      NonEmptyInOrder(a, b[..|b| - 1]);
      assert (a + b)[..|a + b| - 1] == a + b[..|b| - 1];
    }
  }

  lemma NonEmptyOne(x: string)
    ensures NonEmpty([x]) == if x == "" then [] else [x]
  {
    assert [x][..0] == [];
  }

  // ----- reading the exported list back -----

  // A line of the list without its indent and its comma.
  function Listed(line: string): string {
    var name := if "  " <= line then line[2..] else line;
    if name != "" && name[|name| - 1] == ',' then name[..|name| - 1] else name
  }

  // The lines up to the closing bracket.
  function ListedNames(lines: seq<string>): seq<string> {
    if lines == [] || lines[0] == "]" then [] else [Listed(lines[0])] + ListedNames(lines[1..])
  }

  // The names in the list that is declared under the given name.
  function ReadList(listName: string, lines: seq<string>): Option<seq<string>> {
    if lines == [] then None
    else if lines[0] == "const " + listName + " = [" then Some(ListedNames(lines[1..]))
    else ReadList(listName, lines[1..])
  }

  // What is exported last.
  function ReadExport(lines: seq<string>): Option<string> {
    if lines == [] then None
    else
      var later := ReadExport(lines[1..]);
      if later.Some? then later
      else if "export default " <= lines[0] then Some(lines[0][15..]) else None
  }

  lemma LinesFirst(line: string, rest: string)
    requires NoBreak(line)
    ensures Lines(Line(line, rest)) == [line] + Lines(rest)
  {
    hide FirstBreak, NoBreak;
    var s := line + "\n" + rest;
    FirstBreakIs(line, rest);
    assert s[..|line|] == line && s[|line| + 1..] == rest;
  }

  lemma ListSkips(listName: string, line: string, rest: string)
    requires NoBreak(line) && line != "const " + listName + " = ["
    ensures ReadList(listName, Lines(Line(line, rest))) == ReadList(listName, Lines(rest))
  {
    LinesFirst(line, rest);
    assert ([line] + Lines(rest))[1..] == Lines(rest);
  }

  lemma {:induction false} ListAfterImports(nm: Naming, pascal: string -> string, kept: seq<Keep>, rest: string)
    requires forall k :: k in kept ==> NoBreak(VarName(nm, pascal, k)) && NoBreak(k.file)
    ensures ReadList(nm.listName, Lines(ImportLines(nm, pascal, kept) + rest)) == ReadList(nm.listName, Lines(rest))
    decreases |kept|
  {
    hide VarName, NoBreak, ReadList, Lines, Line;
    if kept == [] {
      assert ImportLines(nm, pascal, kept) + rest == rest;
    } else {
      var n := |kept| - 1;
      var k := kept[n];
      assert k in kept;
      var line := ImportLine(VarName(nm, pascal, k), k.file);
      ImportLineOf(nm, pascal, kept, n, rest);
      ListAfterImports(nm, pascal, kept[..n], Line(line, rest));
      ImportLinePlain(VarName(nm, pascal, k), k.file);
      assert line[0] == 'i' && ("const " + nm.listName + " = [")[0] == 'c';
      ListSkips(nm.listName, line, rest);
    }
  }

  function VarNames(nm: Naming, pascal: string -> string, kept: seq<Keep>): seq<string> {
    seq(|kept|, i requires 0 <= i < |kept| => VarName(nm, pascal, kept[i]))
  }

  lemma ListedIs(name: string, end: string)
    requires end == "" || end == ","
    requires name != "" ==> name[|name| - 1] != ','
    ensures Listed("  " + name + end) == name && "  " + name + end != "]"
  {
    var line := "  " + name + end;
    assert line[0] == ' ';
    assert line[2..] == name + end;
    assert end == "," ==> (name + end)[..|name|] == name;
    assert end == "" ==> name + end == name;
  }

  lemma NamesStep(line: string, lines: seq<string>)
    requires line != "]"
    ensures ListedNames([line] + lines) == [Listed(line)] + ListedNames(lines)
  {
    assert ([line] + lines)[1..] == lines;
  }

  lemma IndentedPlainLine(name: string, end: string)
    requires NoBreak(name) && (end == "" || end == ",")
    ensures NoBreak("  " + name + end)
  {
    PlainJoin("  ", name);
    EmptyPlain();
    PlainJoin("  " + name, end);
  }

  lemma ListedLine(name: string, end: string, rest: string)
    requires NoBreak(name) && (end == "" || end == ",")
    requires name != "" ==> name[|name| - 1] != ','
    ensures ListedNames(Lines(Line("  " + name + end, rest))) == [name] + ListedNames(Lines(rest))
  {
    hide NoBreak, ListedNames, Lines, Line, Listed;
    IndentedPlainLine(name, end);
    LinesFirst("  " + name + end, rest);
    ListedIs(name, end);
    NamesStep("  " + name + end, Lines(rest));
  }

  lemma {:induction false} ListedVarList(nm: Naming, pascal: string -> string, kept: seq<Keep>, end: string, rest: string)
    requires kept != [] && (end == "" || end == ",")
    requires forall k :: k in kept ==> IsPlainName(VarName(nm, pascal, k))
    ensures ListedNames(Lines(Line("  " + VarList(nm, pascal, kept) + end, rest))) ==
            VarNames(nm, pascal, kept) + ListedNames(Lines(rest))
    decreases |kept|
  {
    hide VarName, NoBreak, ListedNames, Lines, Line;
    var n := |kept| - 1;
    var name := VarName(nm, pascal, kept[n]);
    assert kept[n] in kept;
    ListedLine(name, end, rest);
    if n == 0 {
      assert VarNames(nm, pascal, kept) == [name];
    } else {
      VarListStep(nm, pascal, kept, n, end, rest);
      ListedVarList(nm, pascal, kept[..n], ",", Line("  " + name + end, rest));
      assert VarNames(nm, pascal, kept) == VarNames(nm, pascal, kept[..n]) + [name];
      assert VarNames(nm, pascal, kept[..n]) + ([name] + ListedNames(Lines(rest)))
             == VarNames(nm, pascal, kept) + ListedNames(Lines(rest));
    }
  }

  // A name without line breaks that does not end in a comma.
  ghost predicate IsPlainName(name: string) {
    NoBreak(name) && (name != "" ==> name[|name| - 1] != ',')
  }

  // The index lists exactly the declared variables, in order, under the list's
  // name.
  lemma IndexListsNames(nm: Naming, pascal: string -> string, kept: seq<Keep>)
    requires WellNamed(nm, pascal, kept) && kept != []
    requires forall k :: k in kept ==> IsPlainName(VarName(nm, pascal, k))
    ensures ReadList(nm.listName, Lines(IndexText(nm, pascal, kept))) == Some(VarNames(nm, pascal, kept))
  {
    hide VarName, NoBreak, ListedNames, Lines, Line, VarList, ImportLines, ReadList;
    var head := "const " + nm.listName + " = [";
    var last := "export default " + nm.listName;
    var list := ListText(nm, pascal, kept);
    var close := Line("]", Line("", Line(last, "")));
    ListAfterImports(nm, pascal, kept, Line("", Line(head, list)));
    OtherLines(nm.listName, head, last);
    assert head[0] == 'c';
    ListSkips(nm.listName, "", Line(head, list));
    LinesFirst(head, list);
    ListStarts(nm.listName, Lines(list));
    assert "  " + VarList(nm, pascal, kept) + "" == "  " + VarList(nm, pascal, kept);
    ListedVarList(nm, pascal, kept, "", close);
    LinesFirst("]", Line("", Line(last, "")));
    ListEnds(Lines(Line("", Line(last, ""))));
    assert VarNames(nm, pascal, kept) + [] == VarNames(nm, pascal, kept);
  }

  lemma ListStarts(listName: string, lines: seq<string>)
    ensures ReadList(listName, ["const " + listName + " = ["] + lines) == Some(ListedNames(lines))
  {
    assert (["const " + listName + " = ["] + lines)[1..] == lines;
  }

  lemma ListEnds(lines: seq<string>)
    ensures ListedNames(["]"] + lines) == []
  {
  }

  // ----- reading the export back -----

  lemma {:induction false} LinesAfter(pre: string, rest: string) returns (front: seq<string>)
    ensures Lines(pre + "\n" + rest) == front + Lines(rest)
    decreases |pre|
  {
    var i := FirstBreak(pre);
    var s := pre + "\n" + rest;
    if i == |pre| {
      LinesFirst(pre, rest);
      front := [pre];
    } else {
      var tail := pre[i + 1..];
      assert s == pre[..i] + "\n" + (tail + "\n" + rest);
      LinesFirst(pre[..i], tail + "\n" + rest);
      front := LinesAfter(tail, rest);
      front := [pre[..i]] + front;
    }
  }

  lemma {:induction false} ExportIsLast(front: seq<string>, lines: seq<string>)
    requires ReadExport(lines).Some?
    ensures ReadExport(front + lines) == ReadExport(lines)
    decreases |front|
  {
    if front == [] {
      assert front + lines == lines;
    } else {
      assert (front + lines)[1..] == front[1..] + lines;
      ExportIsLast(front[1..], lines);
    }
  }

  // The list is what the index exports.
  lemma IndexExportsList(nm: Naming, pascal: string -> string, kept: seq<Keep>)
    requires NoBreak(nm.listName)
    ensures ReadExport(Lines(IndexText(nm, pascal, kept))) == Some(nm.listName)
  {
    hide VarList, ImportLines, Lines, ReadExport;
    var head := "const " + nm.listName + " = [";
    var last := "export default " + nm.listName;
    var pre := ImportLines(nm, pascal, kept) + ("" + "\n" + (head + "\n" + ("  " + VarList(nm, pascal, kept) + "\n" + ("]" + "\n" + ""))));
    assert IndexText(nm, pascal, kept) == pre + "\n" + Line(last, "");
    var front := LinesAfter(pre, Line(last, ""));
    OtherLines(nm.listName, head, last);
    LinesFirst(last, "");
    ExportLine(nm.listName);
    ExportIsLast(front, [last] + Lines(""));
  }

  lemma ExportLine(listName: string)
    ensures ReadExport(["export default " + listName] + Lines("")) == Some(listName)
  {
    var last := "export default " + listName;
    assert Lines("") == [""];
    assert ([last] + [""])[1..] == [""] && [""][1..] == [];
    assert ReadExport([""]) == None;
    assert last[15..] == listName;
  }

  // Each import has the class of its side, the semantic in Pascal case and the
  // scene in its name.
  lemma ImportedNames(nm: Naming, pascal: string -> string, kept: seq<Keep>, i: nat)
    requires WellNamed(nm, pascal, kept) && i < |kept|
    ensures var imports := ReadImports(IndexText(nm, pascal, kept));
            && |imports| == |kept|
            && imports[i] == Import(nm.classPrefix + pascal(kept[i].semantic) + nm.scenePascal, kept[i].file)
  {
    hide ReadImports, IndexText;
    IndexReadsBack(nm, pascal, kept);
  }

  // The component files are those whose name ends in ".vue".
  lemma ComponentFiles(name: string)
    ensures IsVue(name) <==> exists pre: string :: name == pre + ".vue"
  {
    if IsVue(name) {
      assert name == name[..|name| - 4] + ".vue";
    }
    if exists pre: string :: name == pre + ".vue" {
      var pre: string :| name == pre + ".vue";
      assert name[|pre|..] == ".vue";
    }
  }
}
