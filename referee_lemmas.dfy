/** What the extraction and the scan of `Referee::Project` guarantee. */
module RefereeLemmas {
  import opened Wrappers
  import opened Collections
  import opened Strings
  import opened Xml
  import opened Referee

  // ---------------------------------------------------------------------
  // Storyboards and cells

  /** `find_storyboards` returns exactly the files of the storyboard type, in project order. */
  lemma StoryboardsSpec(files: seq<FileReference>)
    ensures forall f :: f in Storyboards(files) <==> f in files && f.lastKnownFileType == StoryboardFileType
    ensures forall f :: multiset(Storyboards(files))[f] ==
                        if f.lastKnownFileType == StoryboardFileType then multiset(files)[f] else 0
    ensures IsSubsequence(Storyboards(files), files)
  {
    SelectSpec(files, IsStoryboard);
  }

  /**
   * `table_cells` and `collection_cells` return, without duplicates and in
   * the order of first occurrence, the reuse identifiers present on the
   * elements with exactly that tag; empty and whitespace identifiers stay.
   */
  lemma CellIdentifiersSpec(doc: Document, tag: string)
    ensures NoDuplicates(CellIdentifiers(doc, tag))
    ensures forall id :: id in CellIdentifiers(doc, tag) <==>
              exists e :: e in doc && e.name == tag && Attr(e, "reuseIdentifier") == Some(id)
    ensures FirstOccurrenceOrder(CellIdentifiers(doc, tag), ReuseIdentifiers(doc, tag))
  {
    ReuseIdentifiersMembers(doc, tag);
    UniqSpec(ReuseIdentifiers(doc, tag));
  }

  /** The identifiers `compact` leaves are the present `reuseIdentifier` values of the elements tagged `tag`. */
  lemma ReuseIdentifiersMembers(doc: Document, tag: string)
    ensures forall id :: id in ReuseIdentifiers(doc, tag) <==>
              exists e :: e in doc && e.name == tag && Attr(e, "reuseIdentifier") == Some(id)
  {
    var cells := Css(doc, {tag});
    var values := AttrValues(cells, "reuseIdentifier");
    CssMembers(doc, {tag});
    AttrValuesMembers(cells, "reuseIdentifier");
    CompactMembers(values);
    forall id ensures id in ReuseIdentifiers(doc, tag) <==> exists e :: e in cells && Attr(e, "reuseIdentifier") == Some(id) {
    }
  }

  // ---------------------------------------------------------------------
  // View controllers

  /** A descriptor's identifier is the element's, its class `customClass` or else its tag's paired default. */
  lemma DescribeClass(e: Element)
    ensures Describe(e).identifier == Attr(e, "storyboardIdentifier")
    ensures "customClass" in e.attributes ==> Describe(e).klass == Some(e.attributes["customClass"])
    ensures "customClass" !in e.attributes && e.name in ViewControllerTags ==>
              Describe(e).klass == Some(DefaultViewControllerTypes[IndexOf(ViewControllerTags, e.name)])
    ensures "customClass" !in e.attributes && e.name !in ViewControllerTags ==> Describe(e).klass == None
  {
    TypeMapPairsTagsWithTypes();
  }

  /**
   * `view_controllers` keeps, in document order, the descriptor of each
   * controller element whose identifier is present and not all whitespace,
   * unstripped, and no more descriptors than there are controller elements.
   */
  lemma ViewControllerListSpec(doc: Document)
    ensures |ViewControllerList(doc)| <= |Css(doc, ViewControllerTagSet)|
    ensures forall d :: d in ViewControllerList(doc) ==> d.identifier.Some? && !Blank(d.identifier.value)
    ensures forall d :: d in ViewControllerList(doc) <==>
              exists e :: e in doc && e.name in ViewControllerTags && Describe(e) == d &&
                          d.identifier.Some? && !Blank(d.identifier.value)
    ensures IsSubsequence(ViewControllerList(doc), ControllerDescriptors(doc))
    ensures forall d :: multiset(ViewControllerList(doc))[d] ==
                        if HasIdentifier(d) then multiset(ControllerDescriptors(doc))[d] else 0
  {
    var all := ControllerDescriptors(doc);
    var list := ViewControllerList(doc);
    SelectSpec(all, HasIdentifier);
    ControllerDescriptorsMembers(doc);
    forall d ensures d in list <==> d in all && d.identifier.Some? && !Blank(d.identifier.value) {
      HasIdentifierIffNotBlank(d);
    }
  }

  lemma HasIdentifierIffNotBlank(d: ViewControllerDescriptor)
    ensures HasIdentifier(d) <==> d.identifier.Some? && !Blank(d.identifier.value)
  {
    if d.identifier.Some? {
      StripEmptyIffBlank(d.identifier.value);
    }
  }

  /**
   * Before deletion there is one descriptor per controller element, in
   * document order, and no other.
   */
  lemma ControllerDescriptorsMembers(doc: Document)
    ensures |ControllerDescriptors(doc)| == |Css(doc, ViewControllerTagSet)|
    ensures forall i :: 0 <= i < |ControllerDescriptors(doc)| ==>
              ControllerDescriptors(doc)[i] == Describe(Css(doc, ViewControllerTagSet)[i])
    ensures forall d :: d in ControllerDescriptors(doc) <==>
              exists e :: e in doc && e.name in ViewControllerTags && Describe(e) == d
  {
    var matched := Css(doc, ViewControllerTagSet);
    var all := ControllerDescriptors(doc);
    CssMembers(doc, ViewControllerTagSet);
    forall d | d in all ensures exists e :: e in doc && e.name in ViewControllerTags && Describe(e) == d {
      var i :| 0 <= i < |all| && all[i] == d;
      assert matched[i] in matched;
    }
    forall e | e in doc && e.name in ViewControllerTags ensures Describe(e) in all {
      assert e in matched;
      var i :| 0 <= i < |matched| && matched[i] == e;
      assert all[i] == Describe(e);
    }
  }

  // ---------------------------------------------------------------------
  // Segues

  /**
   * `segues` returns the identifiers of the segue elements that are present
   * and not all whitespace, unstripped, without duplicates, in the order of
   * their first occurrence in the document.
   */
  lemma SegueListSpec(doc: Document)
    ensures NoDuplicates(SegueList(doc))
    ensures forall id :: id in SegueList(doc) <==>
              exists e :: e in doc && e.name == "segue" && Attr(e, "identifier") == Some(id) && !Blank(id)
    ensures FirstOccurrenceOrder(SegueList(doc), SegueIdentifiers(doc))
  {
    SegueIdentifiersMembers(doc);
    UniqSpec(SegueIdentifiers(doc));
  }

  /** After `delete_if`, the identifiers left are the present, non-blank ones of segue elements. */
  lemma SegueIdentifiersMembers(doc: Document)
    ensures forall id :: id in SegueIdentifiers(doc) <==>
              exists e :: e in doc && e.name == "segue" && Attr(e, "identifier") == Some(id) && !Blank(id)
  {
    var segues := Css(doc, {"segue"});
    var slots := SegueIdentifierSlots(doc);
    CssMembers(doc, {"segue"});
    AttrValuesSpec(segues, "identifier");
    SelectMembers(slots, HasSegueIdentifier);
    CompactMembers(Select(slots, HasSegueIdentifier));
    forall id ensures id in SegueIdentifiers(doc) <==> Some(id) in slots && !Blank(id) {
      StripEmptyIffBlank(id);
    }
  }

  // ---------------------------------------------------------------------
  // Resource groups and the missing-ID check

  /**
   * A storyboard's group holds its extraction results and the configuration
   * unchanged; its controllers are the identifier-bearing descriptors
   * without duplicates, in first-occurrence order, so two descriptors with
   * one identifier and different classes both stay.
   */
  lemma GroupSpec(storyboard: FileReference, src: Sources, config: Config)
    ensures var g := Group(storyboard, src, config);
            var xml := src.xml(storyboard);
            && g.storyboard == storyboard && g.config == config
            && g.tableCells == TableCells(xml) && g.collectionCells == CollectionCells(xml)
            && g.segues == SegueList(xml)
            && NoDuplicates(g.viewControllers)
            && (forall d :: d in g.viewControllers <==> d in ViewControllerList(xml))
            && FirstOccurrenceOrder(g.viewControllers, ViewControllerList(xml))
  {
    UniqSpec(ViewControllerList(src.xml(storyboard)));
  }

  /**
   * Blank identifiers are deleted before the check, so the check fires
   * exactly when two controllers share both identifier and class.
   */
  lemma MissingIdsIffDuplicateDescriptor(doc: Document)
    ensures HasMissingIds(doc) <==> !NoDuplicates(ViewControllerList(doc))
  {
    UniqSpec(ViewControllerList(doc));
  }

  /**
   * In terms of the document: the check fires iff two controller elements
   * (in the order the selector returns them) have one shared, present and
   * non-blank identifier and one shared class.
   */
  lemma MissingIdsIffRepeatedController(doc: Document)
    ensures var m := Css(doc, ViewControllerTagSet);
            HasMissingIds(doc) <==>
            exists i, j :: 0 <= i < j < |m| && HasIdentifier(Describe(m[i])) && Describe(m[i]) == Describe(m[j])
  {
    MissingIdsIffDuplicateDescriptor(doc);
    SelectNoDuplicates(ControllerDescriptors(doc), HasIdentifier);
    RepeatedDescriptorIffRepeatedController(doc);
  }

  lemma RepeatedDescriptorIffRepeatedController(doc: Document)
    ensures var m := Css(doc, ViewControllerTagSet);
            HasRepeatedMatch(ControllerDescriptors(doc), HasIdentifier) <==>
            exists i, j :: 0 <= i < j < |m| && HasIdentifier(Describe(m[i])) && Describe(m[i]) == Describe(m[j])
  {
    ControllerDescriptorsMembers(doc);
    RepeatedMatchOfImages(Css(doc, ViewControllerTagSet), ControllerDescriptors(doc), Describe, HasIdentifier);
  }

  /** A controller element without an identifier does not, by itself, trigger the check. */
  lemma ControllerWithoutIdentifierIsNotReported(e: Element)
    requires e.name in ViewControllerTagSet && "storyboardIdentifier" !in e.attributes
    ensures ViewControllerList([e]) == []
    ensures !HasMissingIds([e])
  {
    CssAll([e], ViewControllerTagSet);
    assert ControllerDescriptors([e]) == [Describe(e)];
    assert !HasIdentifier(Describe(e));
    SelectNone([Describe(e)], HasIdentifier);
  }

  // This lemma and `TypeMapExamples` restate single entries of the constant
  // tables, so that the examples below need not unfold the nine-element tables.

  /** `viewController` and `tableViewController` are among the queried controller tags. */
  lemma HomeControllerTags()
    ensures "viewController" in ViewControllerTagSet && "tableViewController" in ViewControllerTagSet
  {
    assert ViewControllerTags[0] == "viewController" && ViewControllerTags[1] == "tableViewController";
  }

  /** The descriptors of a two-element document whose elements are both controllers. */
  lemma TwoControllerDescriptors(doc: Document)
    requires |doc| == 2 && doc[0].name in ViewControllerTagSet && doc[1].name in ViewControllerTagSet
    ensures ControllerDescriptors(doc) == [Describe(doc[0]), Describe(doc[1])]
  {
    CssAll(doc, ViewControllerTagSet);
  }

  /** A controller without `customClass` is described with its identifier and its tag's default type. */
  lemma DescribeWithoutCustomClass(e: Element, id: string, tag: string, klass: string)
    requires e == Element(tag, map["storyboardIdentifier" := id])
    requires DefaultType(tag) == Some(klass)
    ensures Describe(e) == ViewControllerDescriptor(Some(id), Some(klass))
  {
    assert "customClass" !in e.attributes;
  }

  /** The two descriptors of `SameIdentifierDifferentClassesKept`'s document. */
  lemma TwoControllersOneIdentifier(doc: Document, id: string)
    requires doc == [Element("viewController", map["storyboardIdentifier" := id]),
                     Element("tableViewController", map["storyboardIdentifier" := id])]
    requires !NilOrBlank(Some(id))
    ensures ViewControllerList(doc) == [ViewControllerDescriptor(Some(id), Some("UIViewController")),
                                        ViewControllerDescriptor(Some(id), Some("UITableViewController"))]
  {
    HomeControllerTags();
    TypeMapExamples();
    TwoControllerDescriptors(doc);
    DescribeWithoutCustomClass(doc[0], id, "viewController", "UIViewController");
    DescribeWithoutCustomClass(doc[1], id, "tableViewController", "UITableViewController");
    var all := ControllerDescriptors(doc);
    assert HasIdentifier(all[0]) && HasIdentifier(all[1]);
    SelectAll(all, HasIdentifier);
  }

  /** Two identical controllers with a non-blank identifier trigger the check. */
  lemma RepeatedControllerReported(id: string)
    requires !NilOrBlank(Some(id))
    ensures HasMissingIds([Element("viewController", map["storyboardIdentifier" := id]),
                           Element("viewController", map["storyboardIdentifier" := id])])
  {
    var doc := [Element("viewController", map["storyboardIdentifier" := id]),
                Element("viewController", map["storyboardIdentifier" := id])];
    var e := doc[0];
    HomeControllerTags();
    TypeMapExamples();
    DescribeWithoutCustomClass(e, id, "viewController", "UIViewController");
    assert HasIdentifier(Describe(e));
    CssAll(doc, ViewControllerTagSet);
    MissingIdsIffRepeatedController(doc);
    var m := Css(doc, ViewControllerTagSet);
    assert m[0] == e && m[1] == e;
  }

  /** One identifier under two controller tags yields two descriptors, both kept, and no diagnostic. */
  lemma SameIdentifierDifferentClassesKept(id: string)
    requires !NilOrBlank(Some(id))
    ensures
      var doc := [Element("viewController", map["storyboardIdentifier" := id]),
                  Element("tableViewController", map["storyboardIdentifier" := id])];
      var plain := ViewControllerDescriptor(Some(id), Some("UIViewController"));
      var table := ViewControllerDescriptor(Some(id), Some("UITableViewController"));
      Uniq(ViewControllerList(doc)) == [plain, table] && !HasMissingIds(doc)
  {
    var doc := [Element("viewController", map["storyboardIdentifier" := id]),
                Element("tableViewController", map["storyboardIdentifier" := id])];
    TwoControllersOneIdentifier(doc, id);
    assert |"UIViewController"| != |"UITableViewController"|;
    UniqOfTwoDistinct(ViewControllerDescriptor(Some(id), Some("UIViewController")),
                      ViewControllerDescriptor(Some(id), Some("UITableViewController")));
  }

  lemma UniqOfTwoDistinct<T>(x: T, y: T)
    requires x != y
    ensures Uniq([x, y]) == [x, y]
  {
    assert NoDuplicates([x, y]);
    UniqSpec([x, y]);
  }

  lemma TwoSegueSlots(doc: Document, id: string)
    requires doc == [Element("segue", map["identifier" := id]), Element("segue", map["identifier" := id])]
    ensures SegueIdentifierSlots(doc) == [Some(id), Some(id)]
  {
    CssAll(doc, {"segue"});
  }

  lemma TwoSegueIdentifiers(slots: seq<Option<string>>, id: string)
    requires slots == [Some(id), Some(id)] && !NilOrBlank(Some(id))
    ensures Compact(Select(slots, HasSegueIdentifier)) == [id, id]
  {
    SelectAll(slots, HasSegueIdentifier);
    CompactTwo(id, id);
  }

  lemma CompactTwo<T>(x: T, y: T)
    ensures Compact([Some(x), Some(y)]) == [x, y]
  {
    var s := [Some(x), Some(y)];
    assert s[..1] == [Some(x)] && s[..1][..0] == [];
    assert Compact(s[..1]) == [x];
  }

  /** An identifier that starts with a visible character is neither nil nor blank. */
  lemma VisibleIdentifier(s: string)
    requires s != [] && !IsSpace(s[0])
    ensures !NilOrBlank(Some(s))
  {
    StripEmptyIffBlank(s);
  }

  /** Two segues with one non-blank identifier collapse into one entry. */
  lemma DuplicateSeguesCollapse(id: string)
    requires !NilOrBlank(Some(id))
    ensures SegueList([Element("segue", map["identifier" := id]), Element("segue", map["identifier" := id])]) == [id]
  {
    var doc := [Element("segue", map["identifier" := id]), Element("segue", map["identifier" := id])];
    TwoSegueSlots(doc, id);
    TwoSegueIdentifiers(SegueIdentifierSlots(doc), id);
    UniqTwice(id);
  }

  lemma UniqTwice<T>(x: T)
    ensures Uniq([x, x]) == [x]
  {
    var s := [x, x];
    assert s[1..] == [x] && s[1..][1..] == [];
    assert {} + {x} == {x};
    assert UniqFrom(s[1..], {x}) == [];
  }

  /** For example, two segues named `toDetail` give the one entry `toDetail`. */
  lemma DuplicateSeguesExample()
    ensures SegueList([Element("segue", map["identifier" := "toDetail"]),
                       Element("segue", map["identifier" := "toDetail"])]) == ["toDetail"]
  {
    VisibleIdentifier("toDetail");
    DuplicateSeguesCollapse("toDetail");
  }

  // ---------------------------------------------------------------------
  // The scan

  /** The loop dies iff dying is the policy and the check fires on some storyboard. */
  lemma {:induction false} ScanWithOutcome<S>(storyboards: seq<S>, group: S -> ResourceGroup, missing: S -> bool,
                                              message: S -> string, dieOnMissing: bool)
    ensures ScanWith(storyboards, group, missing, message, dieOnMissing).outcome.Aborted? <==>
            dieOnMissing && exists k :: 0 <= k < |storyboards| && missing(storyboards[k])
    decreases |storyboards|
  {
    if storyboards != [] {
      var n := |storyboards| - 1;
      var init := storyboards[..n];
      ScanWithOutcome(init, group, missing, message, dieOnMissing);
      if exists k :: 0 <= k < |init| && missing(init[k]) {
        var k :| 0 <= k < |init| && missing(init[k]);
        assert storyboards[k] == init[k];
      }
      if exists k :: 0 <= k < |storyboards| && missing(storyboards[k]) {
        var k :| 0 <= k < |storyboards| && missing(storyboards[k]);
        if k < n {
          assert init[k] == storyboards[k];
        }
      }
    }
  }

  /**
   * A loop that completes holds the group of every storyboard, in order,
   * and has warned once per storyboard the check fired on, in order.
   */
  lemma {:induction false} ScanWithCompleted<S(!new)>(storyboards: seq<S>, group: S -> ResourceGroup, missing: S -> bool,
                                                message: S -> string, dieOnMissing: bool)
    requires ScanWith(storyboards, group, missing, message, dieOnMissing).outcome == Completed
    ensures var st := ScanWith(storyboards, group, missing, message, dieOnMissing);
            |st.resources| == |storyboards| &&
            forall i :: 0 <= i < |storyboards| ==> st.resources[i] == group(storyboards[i])
    ensures var st := ScanWith(storyboards, group, missing, message, dieOnMissing);
            var flagged := Select(storyboards, missing);
            |st.warnings| == |flagged| &&
            forall i :: 0 <= i < |flagged| ==> st.warnings[i] == message(flagged[i])
    decreases |storyboards|
  {
    if storyboards != [] {
      var n := |storyboards| - 1;
      var init := storyboards[..n];
      var last := storyboards[n];
      var prev := ScanWith(init, group, missing, message, dieOnMissing);
      var st := ScanWith(storyboards, group, missing, message, dieOnMissing);
      assert !prev.outcome.Aborted?;
      ScanWithCompleted(init, group, missing, message, dieOnMissing);
      assert st == StepWith(prev, last, group, missing, message, dieOnMissing);
      assert st.resources == prev.resources + [group(last)];
      forall i | 0 <= i < |storyboards| ensures st.resources[i] == group(storyboards[i]) {
        if i < n {
          assert storyboards[i] == init[i];
        }
      }
      var flaggedInit := Select(init, missing);
      var flagged := Select(storyboards, missing);
      if missing(last) {
        assert flagged == flaggedInit + [last];
        assert st.warnings == prev.warnings + [message(last)];
      } else {
        assert flagged == flaggedInit;
        assert st.warnings == prev.warnings;
      }
    }
  }

  /**
   * `st` is what the loop leaves when it dies at `storyboards[k]`, the
   * first storyboard the check fires on.
   */
  ghost predicate AbortedAt<S>(st: ScanState, k: int, storyboards: seq<S>, group: S -> ResourceGroup,
                               missing: S -> bool, message: S -> string)
  {
    && 0 <= k < |storyboards|
    && missing(storyboards[k])
    && (forall j :: 0 <= j < k ==> !missing(storyboards[j]))
    && st.outcome == Aborted(message(storyboards[k]))
    && |st.resources| == k + 1
    && (forall i :: 0 <= i <= k ==> st.resources[i] == group(storyboards[i]))
    && st.warnings == []
  }

  /**
   * A loop that dies stops at the first storyboard the check fires on: it
   * holds the groups up to and including that one, has warned about none,
   * and dies with that storyboard's message.
   */
  lemma {:induction false} ScanWithAborted<S(!new)>(storyboards: seq<S>, group: S -> ResourceGroup, missing: S -> bool,
                                              message: S -> string, dieOnMissing: bool)
    requires ScanWith(storyboards, group, missing, message, dieOnMissing).outcome.Aborted?
    ensures dieOnMissing
    ensures exists k :: AbortedAt(ScanWith(storyboards, group, missing, message, dieOnMissing), k,
                                  storyboards, group, missing, message)
    decreases |storyboards|
  {
    ScanWithOutcome(storyboards, group, missing, message, dieOnMissing);
    var n := |storyboards| - 1;
    var init := storyboards[..n];
    var prev := ScanWith(init, group, missing, message, dieOnMissing);
    if prev.outcome.Aborted? {
      ScanWithAborted(init, group, missing, message, dieOnMissing);
      var k :| AbortedAt(prev, k, init, group, missing, message);
      assert forall j :: 0 <= j <= k ==> init[j] == storyboards[j];
      assert AbortedAt(prev, k, storyboards, group, missing, message);
    } else {
      ScanWithCompleted(init, group, missing, message, dieOnMissing);
      ScanWithOutcome(init, group, missing, message, dieOnMissing);
      forall j | 0 <= j < n ensures !missing(storyboards[j]) {
        assert init[j] == storyboards[j];
      }
      SelectNone(init, missing);
      assert Select(init, missing) == [];
      assert AbortedAt(ScanWith(storyboards, group, missing, message, dieOnMissing), n,
                       storyboards, group, missing, message);
    }
  }

  /** The storyboards the missing-ID check fires on, in order. */
  function Flagged(storyboards: seq<FileReference>, src: Sources): seq<FileReference> {
    Select(storyboards, MissingIdsOf(src))
  }

  /** `parse_project` dies iff the flag is set and the check fires on some storyboard. */
  lemma ScanOutcome(storyboards: seq<FileReference>, src: Sources, config: Config)
    ensures Scan(storyboards, src, config).outcome.Aborted? <==>
            config.errorOnMissingStoryboardIds &&
            exists k :: 0 <= k < |storyboards| && HasMissingIds(src.xml(storyboards[k]))
  {
    ScanWithOutcome(storyboards, GroupOf(src, config), MissingIdsOf(src), MessageOf(src),
                    config.errorOnMissingStoryboardIds);
  }

  /**
   * When `parse_project` completes, `resources` holds one group per
   * storyboard in storyboard order, and one warning was printed per
   * storyboard the check fired on, in order (none if the flag is set).
   */
  lemma ScanCompleted(storyboards: seq<FileReference>, src: Sources, config: Config)
    requires Scan(storyboards, src, config).outcome == Completed
    ensures |Scan(storyboards, src, config).resources| == |storyboards|
    ensures forall i :: 0 <= i < |storyboards| ==>
              Scan(storyboards, src, config).resources[i] == Group(storyboards[i], src, config)
    ensures |Scan(storyboards, src, config).warnings| == |Flagged(storyboards, src)|
    ensures forall i :: 0 <= i < |Flagged(storyboards, src)| ==>
              Scan(storyboards, src, config).warnings[i] ==
              MissingIdsMessage(src.storyboardName(Flagged(storyboards, src)[i]))
    ensures config.errorOnMissingStoryboardIds ==> Scan(storyboards, src, config).warnings == []
  {
    var die := config.errorOnMissingStoryboardIds;
    ScanWithCompleted(storyboards, GroupOf(src, config), MissingIdsOf(src), MessageOf(src), die);
    ScanWithOutcome(storyboards, GroupOf(src, config), MissingIdsOf(src), MessageOf(src), die);
    if config.errorOnMissingStoryboardIds { SelectNone(storyboards, MissingIdsOf(src)); }
  }

  /**
   * When `parse_project` dies, it dies at the first storyboard the check
   * fires on, with that storyboard's message, after appending the groups
   * up to and including that storyboard and printing no warning.
   */
  lemma ScanAborted(storyboards: seq<FileReference>, src: Sources, config: Config)
    requires Scan(storyboards, src, config).outcome.Aborted?
    ensures config.errorOnMissingStoryboardIds
    ensures exists k :: 0 <= k < |storyboards| && HasMissingIds(src.xml(storyboards[k])) &&
                        (forall j :: 0 <= j < k ==> !HasMissingIds(src.xml(storyboards[j]))) &&
                        Scan(storyboards, src, config).outcome ==
                          Aborted(MissingIdsMessage(src.storyboardName(storyboards[k]))) &&
                        |Scan(storyboards, src, config).resources| == k + 1 &&
                        (forall i :: 0 <= i <= k ==>
                           Scan(storyboards, src, config).resources[i] == Group(storyboards[i], src, config)) &&
                        Scan(storyboards, src, config).warnings == []
  {
    ScanWithAborted(storyboards, GroupOf(src, config), MissingIdsOf(src), MessageOf(src),
                    config.errorOnMissingStoryboardIds);
    var k :| AbortedAt(Scan(storyboards, src, config), k, storyboards, GroupOf(src, config), MissingIdsOf(src),
                       MessageOf(src));
  }

  /** A project without storyboard files yields no groups and no diagnostic. */
  lemma NoStoryboardsNoDiagnostics(files: seq<FileReference>, src: Sources, config: Config)
    requires forall i :: 0 <= i < |files| ==> files[i].lastKnownFileType != StoryboardFileType
    ensures Scan(Storyboards(files), src, config) == ScanState([], [], Completed)
  {
    SelectNone(files, IsStoryboard);
  }
}
