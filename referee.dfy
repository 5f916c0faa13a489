/**
 * `Referee::Project`: finds the storyboards of an Xcode project, extracts
 * the cell, view controller and segue identifiers of each into a
 * resource group, and warns or aborts when a storyboard's view controller
 * list loses entries to deduplication.
 */
module Referee {
  import opened Wrappers
  import opened Collections
  import opened Strings
  import opened Xml

  const StoryboardFileType := "file.storyboard"

  /** The controller tags queried in one selector, in declaration order. */
  const ViewControllerTags: seq<string> := [
    "viewController",
    "tableViewController",
    "navigationController",
    "glkViewController",
    "pageViewController",
    "collectionViewController",
    "splitViewController",
    "avPlayerViewController",
    "tabBarController"
  ]

  /** The default class of the controller tag at the same position. */
  const DefaultViewControllerTypes: seq<string> := [
    "UIViewController",
    "UITableViewController",
    "UINavigationController",
    "GLKViewController",
    "UIPageViewController",
    "UICollectionViewController",
    "UISplitViewController",
    "AVPlayerViewController",
    "UITabBarController"
  ]

  /** Ruby's `Hash[keys.zip(values)]`: of two pairs with one key, the later wins. */
  function HashOfZip<K(!new), V>(keys: seq<K>, values: seq<V>): (m: map<K, V>)
    requires |keys| == |values|
    ensures forall k :: k in m <==> k in keys
    ensures NoDuplicates(keys) ==> forall i :: 0 <= i < |keys| ==> m[keys[i]] == values[i]
    decreases |keys|
  {
    if keys == [] then map[]
    else
      var n := |keys| - 1;
      assert keys == keys[..n] + [keys[n]];
      assert NoDuplicates(keys) ==> NoDuplicates(keys[..n]);
      HashOfZip(keys[..n], values[..n])[keys[n] := values[n]]
  }

  /** Of several pairs with one key, `Hash[keys.zip(values)]` keeps the value of the last. */
  lemma {:induction false} HashOfZipLastWins<K(!new), V>(keys: seq<K>, values: seq<V>, i: nat)
    requires |keys| == |values| && i < |keys|
    requires forall j :: i < j < |keys| ==> keys[j] != keys[i]
    ensures HashOfZip(keys, values)[keys[i]] == values[i]
    decreases |keys|
  {
    var n := |keys| - 1;
    if i < n {
      assert forall j :: i < j < n ==> keys[..n][j] == keys[j];
      HashOfZipLastWins(keys[..n], values[..n], i);
    }
  }

  const ViewControllerTypeMap: map<string, string> := HashOfZip(ViewControllerTags, DefaultViewControllerTypes)

  /** `VIEW_CONTROLLER_TYPE_MAP[tag]`, nil for a tag the map does not know. */
  function DefaultType(tag: string): Option<string> {
    if tag in ViewControllerTypeMap then Some(ViewControllerTypeMap[tag]) else None
  }

  lemma ControllerTagsDistinct()
    ensures NoDuplicates(ViewControllerTags)
  {
  }

  /** The type map pairs the i-th controller tag with the i-th default type and knows no other tag. */
  lemma TypeMapPairsTagsWithTypes()
    ensures forall i :: 0 <= i < |ViewControllerTags| ==>
              DefaultType(ViewControllerTags[i]) == Some(DefaultViewControllerTypes[i])
    ensures forall tag :: tag !in ViewControllerTags ==> DefaultType(tag) == None
  {
    ControllerTagsDistinct();
  }

  /** The type map's entry for the tag at position `i`, read off the two tables. */
  lemma TypeMapEntry(i: nat, tag: string, klass: string)
    requires i < |ViewControllerTags| && ViewControllerTags[i] == tag && DefaultViewControllerTypes[i] == klass
    ensures DefaultType(tag) == Some(klass)
  {
    TypeMapPairsTagsWithTypes();
  }

  /** Lookups in the type map: three tags and their default classes. */
  lemma TypeMapExamples()
    ensures DefaultType("viewController") == Some("UIViewController")
    ensures DefaultType("tableViewController") == Some("UITableViewController")
    ensures DefaultType("tabBarController") == Some("UITabBarController")
  {
    TypeMapEntry(0, "viewController", "UIViewController");
    TypeMapEntry(1, "tableViewController", "UITableViewController");
    TypeMapEntry(8, "tabBarController", "UITabBarController");
  }

  // ---------------------------------------------------------------------
  // Identifier extraction from one storyboard document

  /** `nodes.map { |n| n['reuseIdentifier'] }.compact` over the elements tagged `tag`. */
  function ReuseIdentifiers(doc: Document, tag: string): seq<string> {
    Compact(AttrValues(Css(doc, {tag}), "reuseIdentifier"))
  }

  /** The deduplicated reuse identifiers of the elements tagged `tag`; nil is dropped, nothing is stripped. */
  function CellIdentifiers(doc: Document, tag: string): seq<string> {
    Uniq(ReuseIdentifiers(doc, tag))
  }

  function TableCells(doc: Document): seq<string> {
    CellIdentifiers(doc, "tableViewCell")
  }

  function CollectionCells(doc: Document): seq<string> {
    CellIdentifiers(doc, "collectionViewCell")
  }

  /** `id.nil? || id.strip.empty?`, the condition both `delete_if` calls delete on. */
  predicate NilOrBlank(id: Option<string>) {
    id.None? || Strip(id.value) == ""
  }

  /** The hash `{ identifier:, class: }` built for one controller element. */
  datatype ViewControllerDescriptor = ViewControllerDescriptor(identifier: Option<string>, klass: Option<string>)

  /** The class is `customClass` when the element has one, otherwise its tag's default type. */
  function Describe(e: Element): ViewControllerDescriptor {
    var custom := Attr(e, "customClass");
    ViewControllerDescriptor(Attr(e, "storyboardIdentifier"), if custom.Some? then custom else DefaultType(e.name))
  }

  predicate HasIdentifier(d: ViewControllerDescriptor) {
    !NilOrBlank(d.identifier)
  }

  const ViewControllerTagSet: set<string> := set tag | tag in ViewControllerTags

  /** One descriptor per controller element, in document order, before any deletion. */
  function ControllerDescriptors(doc: Document): seq<ViewControllerDescriptor> {
    var matched := Css(doc, ViewControllerTagSet);
    seq(|matched|, i requires 0 <= i < |matched| => Describe(matched[i]))
  }

  /** What `view_controllers` returns: the descriptors whose identifier is present and not blank. */
  function ViewControllerList(doc: Document): seq<ViewControllerDescriptor> {
    Select(ControllerDescriptors(doc), HasIdentifier)
  }

  method ViewControllers(xml: Document) returns (list: seq<ViewControllerDescriptor>)
    ensures list == ViewControllerList(xml)
  {
    var matched := Css(xml, ViewControllerTagSet);
    var controllers := new ViewControllerDescriptor[|matched|](i requires 0 <= i < |matched| => Describe(matched[i]));
    assert controllers[..] == ControllerDescriptors(xml);
    // delete_if { nil or blank } keeps exactly the descriptors with an identifier
    var n := KeepIf(controllers, HasIdentifier);
    list := controllers[..n];
  }

  predicate HasSegueIdentifier(id: Option<string>) {
    !NilOrBlank(id)
  }

  /** `xml.css('segue').map { |n| n['identifier'] }`. */
  function SegueIdentifierSlots(doc: Document): seq<Option<string>> {
    AttrValues(Css(doc, {"segue"}), "identifier")
  }

  /** The segue identifiers left by `delete_if`, in document order; no nil remains for `Compact` to drop. */
  function SegueIdentifiers(doc: Document): seq<string> {
    Compact(Select(SegueIdentifierSlots(doc), HasSegueIdentifier))
  }

  /** What `segues` returns. */
  function SegueList(doc: Document): seq<string> {
    Uniq(SegueIdentifiers(doc))
  }

  method Segues(xml: Document) returns (ids: seq<string>)
    ensures ids == SegueList(xml)
  {
    var slots := SegueIdentifierSlots(xml);
    var segues := new Option<string>[|slots|](i requires 0 <= i < |slots| => slots[i]);
    assert segues[..] == slots;
    var n := KeepIf(segues, HasSegueIdentifier);
    ids := Uniq(Compact(segues[..n]));
  }

  // ---------------------------------------------------------------------
  // The project scan

  /** A file reference of the project: where it is and the type Xcode records for it. */
  datatype FileReference = FileReference(realPath: string, lastKnownFileType: string)

  /** The configuration: the one flag the scan reads, and the rest, passed on untouched. */
  datatype Config = Config(errorOnMissingStoryboardIds: bool, settings: map<string, string>)

  datatype ResourceGroup = ResourceGroup(
    storyboard: FileReference,
    tableCells: seq<string>,
    collectionCells: seq<string>,
    viewControllers: seq<ViewControllerDescriptor>,
    segues: seq<string>,
    config: Config)

  /** What the scan reads from outside: each storyboard's parsed XML, and the name its group reports. */
  datatype Sources = Sources(xml: FileReference -> Document, storyboardName: FileReference -> string)

  /** `die msg` ends the run; otherwise the scan completes. */
  datatype Outcome = Completed | Aborted(message: string)

  predicate IsStoryboard(f: FileReference) {
    f.lastKnownFileType == StoryboardFileType
  }

  /** What `find_storyboards` returns. */
  function Storyboards(files: seq<FileReference>): seq<FileReference> {
    Select(files, IsStoryboard)
  }

  /** The group built for one storyboard; its controllers are `view_controllers.compact.uniq`. */
  function Group(storyboard: FileReference, src: Sources, config: Config): ResourceGroup {
    var xml := src.xml(storyboard);
    ResourceGroup(storyboard, TableCells(xml), CollectionCells(xml), Uniq(ViewControllerList(xml)), SegueList(xml), config)
  }

  /** The check of line 58: deduplication shortened the controller list. */
  predicate HasMissingIds(doc: Document) {
    |Uniq(ViewControllerList(doc))| != |ViewControllerList(doc)|
  }

  function MissingIdsMessage(storyboardName: string): string {
    "Missing view controller ID(s) in '" + storyboardName + "' storyboard!"
  }

  /** What the scan has produced so far: the groups, the warnings printed, and whether it died. */
  datatype ScanState = ScanState(resources: seq<ResourceGroup>, warnings: seq<string>, outcome: Outcome)

  /**
   * One pass of the loop body of `parse_project`: append the storyboard's
   * group, then warn or die if the missing-ID check fires. `group`,
   * `missing` and `message` are the per-storyboard work, kept abstract so
   * that the loop can be reasoned about apart from the extraction.
   */
  function StepWith<S>(st: ScanState, storyboard: S, group: S -> ResourceGroup, missing: S -> bool,
                       message: S -> string, dieOnMissing: bool): ScanState
  {
    var resources := st.resources + [group(storyboard)];
    if !missing(storyboard) then ScanState(resources, st.warnings, st.outcome)
    else if dieOnMissing then ScanState(resources, st.warnings, Aborted(message(storyboard)))
    else ScanState(resources, st.warnings + [message(storyboard)], st.outcome)
  }

  /** The state after running the loop over `storyboards` in order, stopping at the first `die`. */
  function ScanWith<S>(storyboards: seq<S>, group: S -> ResourceGroup, missing: S -> bool,
                       message: S -> string, dieOnMissing: bool): ScanState
    decreases |storyboards|
  {
    if storyboards == [] then ScanState([], [], Completed)
    else
      var st := ScanWith(storyboards[..|storyboards| - 1], group, missing, message, dieOnMissing);
      if st.outcome.Aborted? then st
      else StepWith(st, storyboards[|storyboards| - 1], group, missing, message, dieOnMissing)
  }

  /** Once the loop has died, the storyboards after that point change nothing. */
  lemma {:induction false} ScanWithStopsAfterAbort<S>(storyboards: seq<S>, k: nat, group: S -> ResourceGroup,
                                                      missing: S -> bool, message: S -> string, dieOnMissing: bool)
    requires k <= |storyboards|
    requires ScanWith(storyboards[..k], group, missing, message, dieOnMissing).outcome.Aborted?
    ensures ScanWith(storyboards, group, missing, message, dieOnMissing) ==
            ScanWith(storyboards[..k], group, missing, message, dieOnMissing)
    decreases |storyboards| - k
  {
    if k < |storyboards| {
      var n := |storyboards| - 1;
      assert storyboards[..n][..k] == storyboards[..k];
      ScanWithStopsAfterAbort(storyboards[..n], k, group, missing, message, dieOnMissing);
    } else {
      assert storyboards[..k] == storyboards;
    }
  }

  function GroupOf(src: Sources, config: Config): FileReference -> ResourceGroup {
    (sb: FileReference) => Group(sb, src, config)
  }

  function MissingIdsOf(src: Sources): FileReference -> bool {
    (sb: FileReference) => HasMissingIds(src.xml(sb))
  }

  function MessageOf(src: Sources): FileReference -> string {
    (sb: FileReference) => MissingIdsMessage(src.storyboardName(sb))
  }

  lemma ScanWithPrefixStep<S>(storyboards: seq<S>, i: nat, group: S -> ResourceGroup, missing: S -> bool,
                              message: S -> string, dieOnMissing: bool)
    requires i < |storyboards|
    requires ScanWith(storyboards[..i], group, missing, message, dieOnMissing).outcome == Completed
    ensures ScanWith(storyboards[..i + 1], group, missing, message, dieOnMissing) ==
            StepWith(ScanWith(storyboards[..i], group, missing, message, dieOnMissing), storyboards[i],
                     group, missing, message, dieOnMissing)
  {
    assert storyboards[..i + 1][..i] == storyboards[..i];
  }

  /** `parse_project`'s loop with this project's extraction, check and message. */
  function Scan(storyboards: seq<FileReference>, src: Sources, config: Config): ScanState {
    ScanWith(storyboards, GroupOf(src, config), MissingIdsOf(src), MessageOf(src), config.errorOnMissingStoryboardIds)
  }

  class Project {
    /** The project's file references, as the Xcode project model lists them. */
    var files: seq<FileReference>
    var config: Config
    var resources: seq<ResourceGroup>

    constructor (files: seq<FileReference>, config: Config)
      ensures this.files == files && this.config == config && resources == []
    {
      this.files := files;
      this.config := config;
      resources := [];
    }

    method FindStoryboards() returns (storyboards: seq<FileReference>)
      ensures storyboards == Storyboards(files)
    {
      var fileList := files;
      var allFiles := new FileReference[|fileList|](i requires 0 <= i < |fileList| => fileList[i]);
      assert allFiles[..] == fileList;
      var n := KeepIf(allFiles, IsStoryboard);
      storyboards := allFiles[..n];
    }

    /** `parse_project`: returns the warnings printed and whether it died. */
    method ParseProject(src: Sources) returns (warnings: seq<string>, outcome: Outcome)
      modifies this`resources
      ensures ScanState(resources, warnings, outcome) == Scan(Storyboards(files), src, config)
    {
      resources := [];
      warnings := [];
      outcome := Completed;
      var storyboards := FindStoryboards();
      var i := 0;
      while i < |storyboards|
        invariant 0 <= i <= |storyboards|
        invariant ScanState(resources, warnings, outcome) == Scan(storyboards[..i], src, config)
        invariant outcome == Completed
      {
        var storyboard := storyboards[i];
        var xml := src.xml(storyboard);
        var tableCells := TableCells(xml);
        var collectionCells := CollectionCells(xml);
        var viewControllers := ViewControllers(xml);
        var nonEmptyViewControllers := Uniq(viewControllers);
        var segues := Segues(xml);

        var group := ResourceGroup(storyboard, tableCells, collectionCells, nonEmptyViewControllers, segues, config);
        assert group == GroupOf(src, config)(storyboard);
        assert (|nonEmptyViewControllers| != |viewControllers|) == MissingIdsOf(src)(storyboard);
        ScanWithPrefixStep(storyboards, i, GroupOf(src, config), MissingIdsOf(src), MessageOf(src),
                           config.errorOnMissingStoryboardIds);
        resources := resources + [group];

        if |nonEmptyViewControllers| != |viewControllers| {
          var msg := MissingIdsMessage(src.storyboardName(group.storyboard));
          if config.errorOnMissingStoryboardIds {
            outcome := Aborted(msg);
            ScanWithStopsAfterAbort(storyboards, i + 1, GroupOf(src, config), MissingIdsOf(src), MessageOf(src),
                                    config.errorOnMissingStoryboardIds);
            return;
          }
          warnings := warnings + [msg];
        }
        i := i + 1;
      }
      assert storyboards[..i] == storyboards;
    }
  }
}
