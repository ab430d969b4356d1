/**
 * The shape of the test tree the extension discovers (src/extension.ts, createTestItems):
 * folder nodes for test directories, feature nodes for feature files inside them, and one
 * scenario node per extracted scenario name. Directory listings and file texts are given
 * values here; reading them is the host's business.
 */
module TestTree {
  import opened Wrappers
  import Extractor
  import Seqs

  /** The bit values of the host's file-type enumeration; a symbolic link adds its bit to its target's kind. */
  const FileKind: nat := 1
  const DirectoryKind: nat := 2
  const SymbolicLinkKind: nat := 64

  /** A file below a test directory: its name, its file type, its location, and its text. */
  datatype FileEntry = FileEntry(name: string, kind: nat, uri: string, text: string)

  /** An entry of the `function` directory: its name, its file type, its location, and its own listing. */
  datatype FolderEntry = FolderEntry(name: string, kind: nat, uri: string, entries: seq<FileEntry>)

  /** A node of the test tree: id, label, location (possibly absent) and children in insertion order. */
  datatype TestItem = TestItem(id: string, itemLabel: string, uri: Option<string>, children: seq<TestItem>)

  /** JavaScript `String.prototype.includes`: try every start position from the left. */
  function Includes(s: string, sub: string): bool
    decreases |s|
  {
    if |sub| > |s| then false
    else if s[..|sub|] == sub then true
    else Includes(s[1..], sub)
  }

  /** sub occurs in s starting at position i. */
  predicate OccursAt(s: string, sub: string, i: nat)
  {
    i + |sub| <= |s| && s[i..i + |sub|] == sub
  }

  lemma {:induction false} OccursShift(s: string, sub: string, i: nat)
    requires s != []
    ensures OccursAt(s[1..], sub, i) <==> OccursAt(s, sub, i + 1)
  {
    if i + 1 + |sub| <= |s| {
      var x, y := s[1..][i..i + |sub|], s[i + 1..i + 1 + |sub|];
      assert forall k :: 0 <= k < |sub| ==> x[k] == s[i + 1 + k] == y[k];
      assert x == y;
    }
  }

  /** `includes` holds exactly when sub occurs somewhere in s. */
  lemma {:induction false} IncludesIffOccurs(s: string, sub: string)
    ensures Includes(s, sub) <==> exists i: nat :: OccursAt(s, sub, i)
    decreases |s|
  {
    if |sub| > |s| {
    } else if s[..|sub|] == sub {
      assert OccursAt(s, sub, 0);
    } else {
      IncludesIffOccurs(s[1..], sub);
      if Includes(s, sub) {
        var i: nat :| OccursAt(s[1..], sub, i);
        OccursShift(s, sub, i);
      } else {
        forall i: nat | OccursAt(s, sub, i) ensures false {
          assert i != 0;
          OccursShift(s, sub, i - 1);
        }
      }
    }
  }

  /** JavaScript `String.prototype.endsWith`. */
  predicate EndsWith(s: string, suffix: string)
  {
    |suffix| <= |s| && s[|s| - |suffix|..] == suffix
  }

  /** The folder filter: exactly a directory (not a link to one) whose name contains `cbs` or `cls`. */
  predicate IsTestFolder(entry: FolderEntry)
  {
    entry.kind == DirectoryKind && (Includes(entry.name, "cbs") || Includes(entry.name, "cls"))
  }

  /** A link to a directory or to a file has the link bit as well, so neither filter takes it. */
  lemma LinksAreSkipped(folder: FolderEntry, file: FileEntry)
    requires folder.kind == DirectoryKind + SymbolicLinkKind && file.kind == FileKind + SymbolicLinkKind
    ensures !IsTestFolder(folder) && !IsFeatureFile(file)
  {
  }

  /** The feature filter: exactly a file (not a link to one) whose name ends with `.feature`. */
  predicate IsFeatureFile(entry: FileEntry)
  {
    entry.kind == FileKind && EndsWith(entry.name, ".feature")
  }

  /** One scenario node per extracted name, each at the feature file's location. */
  function ScenarioItems(names: seq<string>, featureUri: string): (items: seq<TestItem>)
    ensures |items| == |names|
    ensures forall i :: 0 <= i < |items| ==>
      items[i].id == names[i] && items[i].itemLabel == names[i] && items[i].uri == Some(featureUri) && items[i].children == []
  {
    if names == [] then [] else ScenarioItems(names[..|names| - 1], featureUri) + [ScenarioItem(names[|names| - 1], featureUri)]
  }

  function ScenarioItem(name: string, featureUri: string): TestItem
  {
    TestItem(name, name, Some(featureUri), [])
  }

  /** A feature node: named after the file, at the file's location, its scenarios as children. */
  function FeatureItem(file: FileEntry): (item: TestItem)
    ensures item.id == file.name && item.itemLabel == file.name && item.uri == Some(file.uri)
    ensures var names := Extractor.ScenarioNames(file.text);
      |item.children| == |names| &&
      forall i :: 0 <= i < |names| ==> item.children[i] == TestItem(names[i], names[i], Some(file.uri), [])
  {
    TestItem(file.name, file.name, Some(file.uri), ScenarioItems(Extractor.ScenarioNames(file.text), file.uri))
  }

  /** The feature nodes of a folder listing. */
  function FeatureItems(files: seq<FileEntry>): (items: seq<TestItem>)
    ensures forall file <- files :: IsFeatureFile(file) ==> FeatureItem(file) in items
    ensures forall item <- items :: exists file <- files :: IsFeatureFile(file) && item == FeatureItem(file)
  {
    if files == [] then []
    else
      var init := FeatureItems(files[..|files| - 1]);
      var last := files[|files| - 1];
      assert files == files[..|files| - 1] + [last];
      if IsFeatureFile(last) then init + [FeatureItem(last)] else init
  }

  /** The feature node of a listing entry, if it is a feature file. */
  function FeatureNodes(file: FileEntry): seq<TestItem>
  {
    if IsFeatureFile(file) then [FeatureItem(file)] else []
  }

  /** Feature nodes are added as the listing is walked, before any file is read, so in listing order. */
  lemma {:induction false} FeatureItemsInListingOrder(files: seq<FileEntry>)
    ensures FeatureItems(files) == Seqs.FlatMap(files, FeatureNodes)
    decreases |files|
  {
    if files != [] {
      FeatureItemsInListingOrder(files[..|files| - 1]);
    }
  }

  /** A folder node: named after the directory, at its location, its feature files as children. */
  function FolderItem(folder: FolderEntry): (item: TestItem)
    ensures item.id == folder.name && item.itemLabel == folder.name && item.uri == Some(folder.uri)
    ensures forall file <- folder.entries :: IsFeatureFile(file) ==> FeatureItem(file) in item.children
    ensures forall child <- item.children :: exists file <- folder.entries :: IsFeatureFile(file) && child == FeatureItem(file)
  {
    TestItem(folder.name, folder.name, Some(folder.uri), FeatureItems(folder.entries))
  }

  /** The top-level nodes discovered in the `function` directory's listing. */
  function CreateTestItems(listing: seq<FolderEntry>): (items: seq<TestItem>)
    ensures forall entry <- listing :: IsTestFolder(entry) ==> FolderItem(entry) in items
    ensures forall item <- items :: exists entry <- listing :: IsTestFolder(entry) && item == FolderItem(entry)
  {
    if listing == [] then []
    else
      var init := CreateTestItems(listing[..|listing| - 1]);
      var last := listing[|listing| - 1];
      assert listing == listing[..|listing| - 1] + [last];
      if IsTestFolder(last) then init + [FolderItem(last)] else init
  }

  /** The folder node of a listing entry, if it is a test folder. */
  function FolderNodes(entry: FolderEntry): seq<TestItem>
  {
    if IsTestFolder(entry) then [FolderItem(entry)] else []
  }

  /** Folder nodes are added as the listing is walked, before any folder is read, so in listing order. */
  lemma {:induction false} TestItemsInListingOrder(listing: seq<FolderEntry>)
    ensures CreateTestItems(listing) == Seqs.FlatMap(listing, FolderNodes)
    decreases |listing|
  {
    if listing != [] {
      TestItemsInListingOrder(listing[..|listing| - 1]);
    }
  }

  /**
   * Every scenario node is a childless node whose id and label are a scenario name of its
   * feature file and whose location is that file; every extracted name yields such a node.
   */
  lemma ScenarioNodes(file: FileEntry)
    ensures forall x <- FeatureItem(file).children ::
      x.children == [] && x.id == x.itemLabel && x.itemLabel in Extractor.ScenarioNames(file.text) && x.uri == Some(file.uri)
    ensures forall name <- Extractor.ScenarioNames(file.text) :: ScenarioItem(name, file.uri) in FeatureItem(file).children
  {
    var names := Extractor.ScenarioNames(file.text);
    var items := FeatureItem(file).children;
    forall x <- items
      ensures x.children == [] && x.id == x.itemLabel && x.itemLabel in names && x.uri == Some(file.uri)
    {
      var i :| 0 <= i < |items| && items[i] == x;
      assert x.itemLabel == names[i];
    }
    forall name <- names
      ensures ScenarioItem(name, file.uri) in items
    {
      var i :| 0 <= i < |names| && names[i] == name;
      assert items[i] == ScenarioItem(name, file.uri);
    }
  }
}
