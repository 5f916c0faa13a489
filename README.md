# Referee::Project in Dafny

Referee checks the storyboards of an Xcode project. `Referee::Project` does the following:

- It picks the storyboard files out of the project's file list.
- It reads three kinds of identifiers from each storyboard's XML document:
  - the reuse identifiers of table and collection view cells;
  - a descriptor `{identifier, class}` for each view controller;
  - the segue identifiers.
- It puts them into one resource group per storyboard.
- When a storyboard's controller list shrinks on deduplication, it warns (`warn`) or aborts (`die`), depending on the flag `error_on_missing_storyboard_ids` in the configuration.

This project models that pass, and proves what each step returns and how the loop ends.

Modules:

- `Wrappers`: the `Option` type.
- `Collections`: the Ruby `Array` operations used:
  - `select`/`keep_if` as `Select`;
  - an in-place `KeepIf` method on an array, which also models `delete_if` (it keeps the complement);
  - `compact`;
  - `uniq` (the first occurrence of each element).
- `Strings`: `strip` and `strip.empty?`, using Ruby's whitespace set (NUL, tab, LF, VT, FF, CR, space).
- `Xml`: a parsed document is a sequence of elements, each with a tag and an attribute map. `node[key]` is `Attr`. A CSS selector made of tag names is `Css`, an order-preserving filter by tag.
- `Referee`: the constants, the extractors, and the `Project` class:
  - `FindStoryboards`, `ViewControllers` and `Segues` copy their list into an array and filter it in place with `KeepIf`, whose loop does the work.
  - `ParseProject` loops over the sequence of storyboards and updates the `resources` field in place.
  - `Scan` is the specification function of the scan loop, built on the generic `ScanWith`.
- `RefereeLemmas`: the properties of the extractors and of the scan.

Where the message text and the code disagree, the model follows the code:

- The check at line 58 of `lib/referee/project.rb` compares `view_controllers.compact.uniq` with `view_controllers`.
- Controllers with a nil or blank identifier were already deleted at line 102.
- `.compact` at line 50 has no effect on a list of hashes.
- So the "Missing view controller ID(s)" diagnostic fires exactly when two controller elements of the document have the same present, non-blank identifier and the same class (`MissingIdsIffRepeatedController`). Two identical controllers trigger it (`RepeatedControllerReported`). A controller without an identifier does not (`ControllerWithoutIdentifierIsNotReported`).
- Cell identifiers are neither stripped nor filtered for blankness: only nil is dropped.
- Segue and controller identifiers are filtered for blankness but kept unstripped.

## Model

| member | source | states |
|---|---|---|
| Referee.HashOfZip | lib/referee/project.rb:28 | `Hash[keys.zip(values)]` has exactly the keys of `keys`; with distinct keys, the i-th key maps to the i-th value |
| Referee.HashOfZipLastWins | lib/referee/project.rb:28 | of several pairs with one key, `Hash[keys.zip(values)]` keeps the value of the last |
| Referee.TypeMapPairsTagsWithTypes | lib/referee/project.rb:6-28 | `VIEW_CONTROLLER_TYPE_MAP` sends the i-th controller tag to the i-th default type and any other tag to nil |
| Referee.TypeMapExamples | lib/referee/project.rb:6-28 | `viewController` → `UIViewController`, `tableViewController` → `UITableViewController` and `tabBarController` → `UITabBarController` |
| Referee.Project.FindStoryboards | lib/referee/project.rb:73-76 | the in-place `keep_if` over the project's files returns `Storyboards(files)` |
| RefereeLemmas.StoryboardsSpec | lib/referee/project.rb:73-76 | `find_storyboards` returns exactly the files of type `file.storyboard`, each as often as the project lists it, in project order (as a subsequence of the files) |
| Collections.KeepIf | lib/referee/project.rb:75 | in-place `keep_if` (and `delete_if`, as `keep_if` of the complement) leaves the kept elements as a prefix of the array, in order, equal to `Select` of the old contents |
| Collections.SelectSpec | lib/referee/project.rb:75 | the result of `select` is no longer than the input, holds exactly the elements satisfying the predicate, each as often as it occurs in the input, is empty iff none do, and is a subsequence of the input |
| Collections.SelectNoDuplicates | lib/referee/project.rb:58 | the result of `select` has a duplicate iff some element satisfying the predicate occurs twice in the input |
| Collections.CompactSpec | lib/referee/project.rb:85 | `compact` lists the values of the non-nil entries, position by position as `select` of the non-nil entries lists them, so in order and each as often as it occurs; it drops nothing when there is no nil |
| Collections.UniqSpec | lib/referee/project.rb:85 | `uniq` has no duplicates and holds the input's elements in first-occurrence order; it is shorter than its input iff the input has a duplicate, and it leaves a duplicate-free input unchanged |
| Strings.StripEmptyIffBlank | lib/referee/project.rb:102 | `s.strip.empty?` holds iff every character of `s` is whitespace |
| Xml.CssSpec | lib/referee/project.rb:84 | `xml.css` with a selector of tag names returns exactly the document's elements with those tags, each as often as it occurs, in document order |
| Xml.AttrValuesSpec | lib/referee/project.rb:85 | mapping `n[key]` over the nodes gives one entry per node, in node order: the i-th entry is the i-th node's attribute value, or nil |
| RefereeLemmas.CellIdentifiersSpec | lib/referee/project.rb:83-91 | `table_cells` and `collection_cells` have no duplicates; they hold exactly the non-nil `reuseIdentifier` values (unstripped, empty kept) of the elements with exactly that tag, in first-occurrence order |
| RefereeLemmas.DescribeClass | lib/referee/project.rb:96-100 | a descriptor carries the element's `storyboardIdentifier`; its class is `customClass` when present, else the default type paired with the tag, else nil |
| RefereeLemmas.ControllerDescriptorsMembers | lib/referee/project.rb:94-101 | before deletion there is one descriptor per element whose tag is a controller tag, in document order: the i-th descriptor describes the i-th matched element |
| RefereeLemmas.ViewControllerListSpec | lib/referee/project.rb:93-104 | `view_controllers` keeps, in document order, exactly the descriptors of controller elements whose identifier is present and not blank, each as often as it was built; it is no longer than the list of controller elements |
| Referee.ViewControllers | lib/referee/project.rb:93-104 | the method that builds the descriptors and compacts them in place with `delete_if` returns `ViewControllerList` |
| RefereeLemmas.SegueIdentifiersMembers | lib/referee/project.rb:107-108 | after `delete_if`, the identifiers left are exactly the present, non-blank `identifier` values of segue elements |
| RefereeLemmas.SegueListSpec | lib/referee/project.rb:106-110 | `segues` has no duplicates and holds exactly the present, non-blank, unstripped segue identifiers, in first-occurrence order |
| Referee.Segues | lib/referee/project.rb:106-110 | the method with the in-place `delete_if` returns `SegueList` |
| RefereeLemmas.DuplicateSeguesCollapse | lib/referee/project.rb:106-110 | two segues with one non-blank identifier give that identifier once |
| RefereeLemmas.DuplicateSeguesExample | lib/referee/project.rb:106-110 | two segues named `toDetail` give the one entry `toDetail` |
| RefereeLemmas.GroupSpec | lib/referee/project.rb:47-54 | a storyboard's group holds the storyboard, its cells and segues, and the configuration unchanged; its controllers are the deduplicated `view_controllers`, without duplicates and in first-occurrence order |
| RefereeLemmas.MissingIdsIffDuplicateDescriptor | lib/referee/project.rb:50-58 | the missing-ID check fires iff the identifier-bearing descriptor list contains a duplicate `{identifier, class}` pair |
| RefereeLemmas.MissingIdsIffRepeatedController | lib/referee/project.rb:50-104 | the check fires iff two controller elements, at positions i < j of the selector's result, have the same present, non-blank identifier and the same class |
| RefereeLemmas.RepeatedControllerReported | lib/referee/project.rb:50-58 | two identical `viewController` elements with a non-blank identifier trigger the check |
| RefereeLemmas.ControllerWithoutIdentifierIsNotReported | lib/referee/project.rb:102 | any controller element without `storyboardIdentifier` is deleted, so on its own it does not trigger the check |
| RefereeLemmas.TwoControllersOneIdentifier | lib/referee/project.rb:93-104 | a `viewController` and a `tableViewController` with one non-blank identifier give two descriptors, with classes `UIViewController` and `UITableViewController` |
| RefereeLemmas.SameIdentifierDifferentClassesKept | lib/referee/project.rb:50-58 | for any non-blank identifier, those two descriptors both survive `uniq`, and the check does not fire |
| Referee.Project.ParseProject | lib/referee/project.rb:41-67 | `parse_project` resets `resources`; its final groups, printed warnings and outcome equal `Scan` of the project's storyboards |
| Referee.ScanWithStopsAfterAbort | lib/referee/project.rb:61-62 | once the loop has died, later storyboards change nothing |
| RefereeLemmas.ScanWithOutcome | lib/referee/project.rb:58-66 | the generic loop dies iff dying is the policy and the check fires on some storyboard |
| RefereeLemmas.ScanWithCompleted | lib/referee/project.rb:44-66 | a loop that completes holds every storyboard's group in order, and one message per flagged storyboard, in order |
| RefereeLemmas.ScanWithAborted | lib/referee/project.rb:54-66 | a loop that dies does so at the first flagged storyboard; it holds the groups up to and including that one and no warnings |
| RefereeLemmas.ScanOutcome | lib/referee/project.rb:58-66 | `parse_project` dies iff `error_on_missing_storyboard_ids` is set and the check fires on some storyboard |
| RefereeLemmas.ScanCompleted | lib/referee/project.rb:44-66 | when `parse_project` completes, `resources` has exactly one group per storyboard, in storyboard order, so warnings do not alter it; it has printed `Missing view controller ID(s) in '<name>' storyboard!` once per flagged storyboard, in order, and none when the flag is set |
| RefereeLemmas.ScanAborted | lib/referee/project.rb:54-66 | when `parse_project` dies, it does so with the message of the first flagged storyboard; that storyboard's group was appended first, no later one was, and no warning was printed |
| RefereeLemmas.NoStoryboardsNoDiagnostics | lib/referee/project.rb:41-44 | a project without storyboard files yields no groups and no diagnostic |

## Left out

- `new_with_config` and `initialize_from_file` (lines 33-39) and the `Xcodeproj::Project` file model behind `files` (line 74) are a foreign library. `files` is a field holding a sequence of `(real_path, last_known_file_type)` references, set by the constructor.
- `storyboard_xml` (lines 78-81) opens a file and parses XML. The parsed document of each storyboard comes in through the `Sources.xml` parameter, and parse errors are not modelled.
- Nokogiri CSS semantics beyond "elements with one of these tag names, in document order" (nesting, namespaces, other selector syntax) are not modelled.
- `BuildOutput` (lines 112-114) writes to the console and exits the process. `warn` appends its message to the returned warnings, and `die` ends the loop with an `Aborted(message)` outcome. Memoisation of `@build_output` has no observable logic.
- The internals of `ResourceGroup` are not part of this model; its constructor arguments are kept as a record. `storyboard_name` is an uninterpreted function of the storyboard (`Sources.storyboardName`), and the configuration apart from its one flag is passed through untouched.
- Ruby arrays are modelled as arrays that `KeepIf` compacts into a prefix. The storage beyond the new length, and aliasing of the Ruby array returned by `files`, are not modelled.
