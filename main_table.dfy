/**
 * The decision logic of MainTable, the central entry table: which renderer a cell gets,
 * how a cell's field is classified, the float-search and float-grouping switches with the
 * comparators they install in the sorted-list layers, the column widths, the initial sort
 * columns read from the preferences and the sort order written back to them.
 *
 * Swing, GlazedLists and the preference store are not part of this model: rows are given
 * by the facts the table asks about them, comparators and matchers are opaque tokens, and
 * preferences are a map. Constants of classes outside MainTable are a TableConstants value.
 */
module MainTable {
  import opened Wrappers
  import opened JavaStrings

  /** Constants MainTable takes from other classes. */
  datatype TableConstants = TableConstants(
    markColorLevels: nat,       // EntryMarker.MARK_COLOR_LEVELS
    keyField: string,           // BibtexEntry.KEY_FIELD
    iconColumnPrefix: string,   // MainTableFormat.ICON_COLUMN_PREFIX
    widthIconCol: int,          // GUIGlobals.WIDTH_ICON_COL
    widthIconColRanking: int,   // GUIGlobals.WIDTH_ICON_COL_RANKING
    defaultFieldLength: int)    // GUIGlobals.DEFAULT_FIELD_LENGTH

  function Min(a: int, b: int): int {
    if a < b then a else b
  }

  // ---------------------------------------------------------------- cell status

  /** An EntryType, by the field lists getCellStatus consults. */
  datatype EntryType = EntryType(requiredFieldsFlat: seq<string>, optionalFields: seq<string>)

  /** The cell classes REQUIRED, OPTIONAL, OTHER and BOOLEAN. */
  datatype CellStatus = Required | Optional | Other | Boolean

  /**
   * getCellStatus. `entry` is the row's entry: None for a null entry, Some(None) for an
   * entry without a type. A NullPointerException on the way is caught and gives OTHER;
   * the key column is tested first, so it is REQUIRED even for an entry without a type.
   */
  function GetCellStatus(entry: Option<Option<EntryType>>, columnName: string, keyField: string): (r: CellStatus)
    ensures r != Boolean
    ensures r == Required <==>
      entry.Some? && (ToLower(columnName) == keyField
        || (entry.value.Some? && ToLower(columnName) in entry.value.value.requiredFieldsFlat))
    ensures r == Optional <==>
      entry.Some? && entry.value.Some? && ToLower(columnName) != keyField
        && ToLower(columnName) !in entry.value.value.requiredFieldsFlat
        && ToLower(columnName) in entry.value.value.optionalFields
  {
    match entry
    case None => Other
    case Some(t) =>
      var name := ToLower(columnName);
      if name == keyField then Required
      else
        match t
        case None => Other
        case Some(ty) =>
          if name in ty.requiredFieldsFlat then Required
          else if name in ty.optionalFields then Optional
          else Other
  }

  // ---------------------------------------------------------------- renderers

  /** The shared renderers of MainTable, the marked ones by their index in their array. */
  datatype Renderer =
    | DefRenderer | ReqRenderer | OptRenderer | BooleanRenderer
    | GrayedOutRenderer | VeryGrayedOutRenderer | GrayedOutNumberRenderer | VeryGrayedOutNumberRenderer
    | IncRenderer | CompRenderer
    | MarkedNumberRenderer(index: int) | MarkedRenderer(index: int)

  /** The facts about a row that getCellRenderer asks for. */
  datatype RowFacts = RowFacts(
    entry: Option<Option<EntryType>>,
    searchHit: bool,    // matches(row, searchMatcher), asked only while the search float is on
    groupHit: bool,     // matches(row, groupMatcher), asked only while the group float is on
    complete: bool,     // isComplete(row)
    marking: int)       // isMarked(row)

  /** The index into markedRenderers / markedNumberRenderers for a marking level above 0. */
  function MarkIndex(marking: int, levels: nat): (r: int)
    requires marking > 0 && levels >= 1
    ensures 0 <= r < levels
    ensures r == marking - 1 || (r == levels - 1 && marking > levels)
  {
    Min(marking, levels) - 1
  }

  /** The renderer for a field cell by its status when colour codes are on. */
  function StatusRenderer(status: CellStatus): Renderer {
    match status
    case Required => ReqRenderer
    case Optional => OptRenderer
    case Boolean => BooleanRenderer
    case Other => DefRenderer
  }

  // ---------------------------------------------------------------- float switches

  /** The matcher singletons SearchMatcher.INSTANCE and GroupMatcher.INSTANCE. */
  datatype Matcher = SearchMatcher | GroupMatcher

  /** The comparators the table installs in its sorted-list layers. */
  datatype Comparator = HitOrMissComparator(matcher: Matcher) | IsMarkedComparator

  /**
   * The sorting state of the table: the two float flags, their matchers and comparators,
   * and the comparators installed in the sortedForMarking, sortedForSearch and
   * sortedForGrouping layers.
   */
  datatype Sorting = Sorting(
    floatSearch: bool, floatGrouping: bool,
    searchMatcher: Option<Matcher>, groupMatcher: Option<Matcher>,
    searchComparator: Option<Comparator>, groupComparator: Option<Comparator>,
    markingLayer: Option<Comparator>, searchLayer: Option<Comparator>, groupLayer: Option<Comparator>)

  /**
   * A float is on exactly when its matcher and hit-or-miss comparator are set, and the
   * layers hold the current comparators.
   */
  predicate SortingValid(s: Sorting) {
    && (if s.floatSearch
        then s.searchMatcher == Some(SearchMatcher) && s.searchComparator == Some(HitOrMissComparator(SearchMatcher))
        else s.searchMatcher == None && s.searchComparator == None)
    && (if s.floatGrouping
        then s.groupMatcher == Some(GroupMatcher) && s.groupComparator == Some(HitOrMissComparator(GroupMatcher))
        else s.groupMatcher == None && s.groupComparator == None)
    && s.searchLayer == s.searchComparator
    && s.groupLayer == s.groupComparator
  }

  /** The state refreshSorting leaves: only the three layers change. */
  function Refreshed(s: Sorting, floatMarkedEntries: bool): (r: Sorting)
    ensures r.markingLayer == (if floatMarkedEntries then Some(IsMarkedComparator) else None)
    ensures r.searchLayer == r.searchComparator && r.groupLayer == r.groupComparator
    ensures r.(markingLayer := s.markingLayer, searchLayer := s.searchLayer, groupLayer := s.groupLayer) == s
  {
    s.(markingLayer := if floatMarkedEntries then Some(IsMarkedComparator) else None,
       searchLayer := s.searchComparator,
       groupLayer := s.groupComparator)
  }

  /** The state showFloatSearch leaves. */
  function FloatSearchShown(s: Sorting, floatMarkedEntries: bool): (r: Sorting)
    ensures r.floatSearch && r.searchComparator == Some(HitOrMissComparator(SearchMatcher)) <== !s.floatSearch
    ensures s.floatSearch ==> r == s
    ensures r.floatGrouping == s.floatGrouping && r.groupMatcher == s.groupMatcher && r.groupComparator == s.groupComparator
    ensures SortingValid(s) ==> SortingValid(r) && r.floatSearch
  {
    if s.floatSearch then s
    else Refreshed(s.(floatSearch := true, searchMatcher := Some(SearchMatcher),
                      searchComparator := Some(HitOrMissComparator(SearchMatcher))), floatMarkedEntries)
  }

  /** The state stopShowingFloatSearch leaves. */
  function FloatSearchStopped(s: Sorting, floatMarkedEntries: bool): (r: Sorting)
    ensures !r.floatSearch && r.searchMatcher == None && r.searchComparator == None && r.searchLayer == None <== s.floatSearch
    ensures !s.floatSearch ==> r == s
    ensures r.floatGrouping == s.floatGrouping && r.groupMatcher == s.groupMatcher && r.groupComparator == s.groupComparator
    ensures SortingValid(s) ==> SortingValid(r) && !r.floatSearch
  {
    if !s.floatSearch then s
    else Refreshed(s.(floatSearch := false, searchMatcher := None, searchComparator := None), floatMarkedEntries)
  }

  /** The state showFloatGrouping leaves. */
  function FloatGroupingShown(s: Sorting, floatMarkedEntries: bool): (r: Sorting)
    ensures r.floatGrouping && r.groupComparator == Some(HitOrMissComparator(GroupMatcher)) <== !s.floatGrouping
    ensures s.floatGrouping ==> r == s
    ensures r.floatSearch == s.floatSearch && r.searchMatcher == s.searchMatcher && r.searchComparator == s.searchComparator
    ensures SortingValid(s) ==> SortingValid(r) && r.floatGrouping
  {
    if s.floatGrouping then s
    else Refreshed(s.(floatGrouping := true, groupMatcher := Some(GroupMatcher),
                      groupComparator := Some(HitOrMissComparator(GroupMatcher))), floatMarkedEntries)
  }

  /** The state stopShowingFloatGrouping leaves. */
  function FloatGroupingStopped(s: Sorting, floatMarkedEntries: bool): (r: Sorting)
    ensures !r.floatGrouping && r.groupMatcher == None && r.groupComparator == None && r.groupLayer == None <== s.floatGrouping
    ensures !s.floatGrouping ==> r == s
    ensures r.floatSearch == s.floatSearch && r.searchMatcher == s.searchMatcher && r.searchComparator == s.searchComparator
    ensures SortingValid(s) ==> SortingValid(r) && !r.floatGrouping
  {
    if !s.floatGrouping then s
    else Refreshed(s.(floatGrouping := false, groupMatcher := None, groupComparator := None), floatMarkedEntries)
  }

  /** Each switch is idempotent. */
  lemma SwitchesIdempotent(s: Sorting, fm: bool)
    ensures FloatSearchShown(FloatSearchShown(s, fm), fm) == FloatSearchShown(s, fm)
    ensures FloatSearchStopped(FloatSearchStopped(s, fm), fm) == FloatSearchStopped(s, fm)
    ensures FloatGroupingShown(FloatGroupingShown(s, fm), fm) == FloatGroupingShown(s, fm)
    ensures FloatGroupingStopped(FloatGroupingStopped(s, fm), fm) == FloatGroupingStopped(s, fm)
  {
  }

  /** Stopping a float just switched on returns to the state before, with the layers refreshed. */
  lemma StopUndoesShow(s: Sorting, fm: bool)
    requires SortingValid(s)
    ensures !s.floatSearch ==> FloatSearchStopped(FloatSearchShown(s, fm), fm) == Refreshed(s, fm)
    ensures !s.floatGrouping ==> FloatGroupingStopped(FloatGroupingShown(s, fm), fm) == Refreshed(s, fm)
  {
  }

  /** The search float and the group float can be switched on in either order. */
  lemma ShowFloatsCommute(s: Sorting, fm: bool)
    ensures FloatGroupingShown(FloatSearchShown(s, fm), fm) == FloatSearchShown(FloatGroupingShown(s, fm), fm)
  {
  }

  // ---------------------------------------------------------------- the table

  class Table {
    /** TABLE_COLOR_CODES_ON, read once by the constructor. */
    const tableColorCodes: bool
    const k: TableConstants
    var isFloatSearchActive: bool
    var isFloatGroupingActive: bool
    var searchMatcher: Option<Matcher>
    var groupMatcher: Option<Matcher>
    var searchComparator: Option<Comparator>
    var groupComparator: Option<Comparator>
    /** The comparator of sortedForMarking. */
    var markingLayer: Option<Comparator>
    /** The comparator of sortedForSearch. */
    var searchLayer: Option<Comparator>
    /** The comparator of sortedForGrouping. */
    var groupLayer: Option<Comparator>

    function Snapshot(): Sorting
      reads this
    {
      Sorting(isFloatSearchActive, isFloatGroupingActive, searchMatcher, groupMatcher,
              searchComparator, groupComparator, markingLayer, searchLayer, groupLayer)
    }

    ghost predicate Valid()
      reads this
    {
      SortingValid(Snapshot())
    }

    /**
     * The sorting part of the constructor: no matcher or comparator (lines 133-136), then
     * refreshSorting (line 175). `floatMarkedEntries` is the FLOAT_MARKED_ENTRIES preference.
     */
    constructor (tableColorCodes: bool, k: TableConstants, floatMarkedEntries: bool)
      ensures this.tableColorCodes == tableColorCodes && this.k == k
      ensures Snapshot() == Refreshed(Sorting(false, false, None, None, None, None, None, None, None), floatMarkedEntries)
      ensures Valid() && !isFloatSearchActive && !isFloatGroupingActive
    {
      this.tableColorCodes := tableColorCodes;
      this.k := k;
      isFloatSearchActive, isFloatGroupingActive := false, false;
      searchMatcher, groupMatcher := None, None;
      searchComparator, groupComparator := None, None;
      markingLayer := if floatMarkedEntries then Some(IsMarkedComparator) else None;
      searchLayer, groupLayer := None, None;
    }

    /** refreshSorting: installs the marking, search and group comparators in their layers. */
    method RefreshSorting(floatMarkedEntries: bool)
      modifies this
      ensures Snapshot() == Refreshed(old(Snapshot()), floatMarkedEntries)
    {
      if floatMarkedEntries {
        markingLayer := Some(IsMarkedComparator);
      } else {
        markingLayer := None;
      }
      searchLayer := searchComparator;
      groupLayer := groupComparator;
    }

    /** showFloatSearch (scrolling to the top is not modelled). */
    method ShowFloatSearch(floatMarkedEntries: bool)
      modifies this
      ensures Snapshot() == FloatSearchShown(old(Snapshot()), floatMarkedEntries)
      ensures old(Valid()) ==> Valid()
    {
      if !isFloatSearchActive {
        isFloatSearchActive := true;
        searchMatcher := Some(SearchMatcher);
        searchComparator := Some(HitOrMissComparator(SearchMatcher));
        RefreshSorting(floatMarkedEntries);
      }
    }

    /** stopShowingFloatSearch. */
    method StopShowingFloatSearch(floatMarkedEntries: bool)
      modifies this
      ensures Snapshot() == FloatSearchStopped(old(Snapshot()), floatMarkedEntries)
      ensures old(Valid()) ==> Valid()
    {
      if isFloatSearchActive {
        isFloatSearchActive := false;
        searchMatcher := None;
        searchComparator := None;
        RefreshSorting(floatMarkedEntries);
      }
    }

    /** showFloatGrouping. */
    method ShowFloatGrouping(floatMarkedEntries: bool)
      modifies this
      ensures Snapshot() == FloatGroupingShown(old(Snapshot()), floatMarkedEntries)
      ensures old(Valid()) ==> Valid()
    {
      if !isFloatGroupingActive {
        isFloatGroupingActive := true;
        groupMatcher := Some(GroupMatcher);
        groupComparator := Some(HitOrMissComparator(GroupMatcher));
        RefreshSorting(floatMarkedEntries);
      }
    }

    /** stopShowingFloatGrouping. */
    method StopShowingFloatGrouping(floatMarkedEntries: bool)
      modifies this
      ensures Snapshot() == FloatGroupingStopped(old(Snapshot()), floatMarkedEntries)
      ensures old(Valid()) ==> Valid()
    {
      if isFloatGroupingActive {
        isFloatGroupingActive := false;
        groupMatcher := None;
        groupComparator := None;
        RefreshSorting(floatMarkedEntries);
      }
    }

    /** The row fails the group float: the float is on and the row is not a group hit. */
    predicate FailsGroupFloat(row: RowFacts)
      reads this
    {
      isFloatGroupingActive && !row.groupHit
    }

    /** The row fails the search float: the float is on and the row is not a search hit. */
    predicate FailsSearchFloat(row: RowFacts)
      reads this
    {
      isFloatSearchActive && !row.searchHit
    }

    /**
     * getCellRenderer. The code adds up a score (-3, +1 unless the search float fails,
     * +2 unless the group float fails); stated by what the score means: failing the group
     * float grays a row out strongly, failing only the search float grays it out, and a
     * marked row gets a marked renderer in every column but the first.
     */
    method GetCellRenderer(row: RowFacts, column: int, columnName: string) returns (r: Renderer)
      requires k.markColorLevels >= 1
      ensures column != 0 && row.marking > 0 ==> r == MarkedRenderer(MarkIndex(row.marking, k.markColorLevels))
      ensures !(column != 0 && row.marking > 0) && FailsGroupFloat(row) ==>
        r == (if column == 0 then VeryGrayedOutNumberRenderer else VeryGrayedOutRenderer)
      ensures !(column != 0 && row.marking > 0) && !FailsGroupFloat(row) && FailsSearchFloat(row) ==>
        r == (if column == 0 then GrayedOutNumberRenderer else GrayedOutRenderer)
      ensures !FailsGroupFloat(row) && !FailsSearchFloat(row) && column == 0 ==>
        r == (if !row.complete then IncRenderer
              else if row.marking > 0 then MarkedNumberRenderer(MarkIndex(row.marking, k.markColorLevels))
              else CompRenderer)
      ensures !FailsGroupFloat(row) && !FailsSearchFloat(row) && column != 0 && row.marking <= 0 ==>
        r == (if tableColorCodes then StatusRenderer(GetCellStatus(row.entry, columnName, k.keyField)) else DefRenderer)
      ensures !isFloatSearchActive && !isFloatGroupingActive ==>
        r !in {GrayedOutRenderer, VeryGrayedOutRenderer, GrayedOutNumberRenderer, VeryGrayedOutNumberRenderer}
      ensures (r.MarkedRenderer? || r.MarkedNumberRenderer?) ==> 0 <= r.index < k.markColorLevels
      ensures r != BooleanRenderer
    {
      var score := -3;
      r := DefRenderer;
      var status := GetCellStatus(row.entry, columnName, k.keyField);
      if !isFloatSearchActive || row.searchHit {
        score := score + 1;
      }
      if !isFloatGroupingActive || row.groupHit {
        score := score + 2;
      }
      if score < -1 {
        if column == 0 {
          r := VeryGrayedOutNumberRenderer;
        } else {
          r := VeryGrayedOutRenderer;
        }
      } else if score == -1 {
        if column == 0 {
          r := GrayedOutNumberRenderer;
        } else {
          r := GrayedOutRenderer;
        }
      } else if column == 0 {
        if !row.complete {
          r := IncRenderer;
        } else {
          var marking := row.marking;
          if marking > 0 {
            marking := Min(marking, k.markColorLevels);
            r := MarkedNumberRenderer(marking - 1);
          } else {
            r := CompRenderer;
          }
        }
      } else if tableColorCodes {
        if status == Required {
          r := ReqRenderer;
        } else if status == Optional {
          r := OptRenderer;
        } else if status == Boolean {
          r := BooleanRenderer;
        }
      }
      var marking := row.marking;
      if column != 0 && marking > 0 {
        marking := Min(marking, k.markColorLevels);
        r := MarkedRenderer(marking - 1);
      }
    }
  }

  // ---------------------------------------------------------------- column widths

  /** A column's preferred width, and whether its minimum and maximum are pinned to it. */
  datatype ColumnWidth = ColumnWidth(preferred: int, locked: bool)

  /**
   * The width of the k-th field column: the stored width when there is one and
   * Integer.parseInt accepts it, else the default (the caught exception).
   */
  function FieldWidth(widths: seq<string>, k: nat, default: int): (w: int)
    ensures k < |widths| && ParseInt(widths[k]).Some? ==> w == ParseInt(widths[k]).value
    ensures (k >= |widths| || ParseInt(widths[k]).None?) ==> w == default
    ensures w == default || MinInt <= w <= MaxInt
  {
    if k < |widths| then
      match ParseInt(widths[k])
      case Some(v) => v
      case None => default
    else default
  }

  /** A width stored with Integer.toString is read back unchanged. */
  lemma FieldWidthRoundTrip(widths: seq<string>, k: nat, n: int, default: int)
    requires k < |widths| && widths[k] == IntString(n) && MinInt <= n <= MaxInt
    ensures FieldWidth(widths, k, default) == n
  {
    ParseIntString(n);
  }

  /** The width setWidths gives column i. */
  function ExpectedWidth(i: nat, ncWidth: int, widths: seq<string>, padleft: nat,
                         isRankingColumn: int -> bool, k: TableConstants): ColumnWidth
  {
    if i >= padleft then ColumnWidth(FieldWidth(widths, i - padleft, k.defaultFieldLength), false)
    else if i == 0 then ColumnWidth(ncWidth, false)
    else if isRankingColumn(i) then ColumnWidth(k.widthIconColRanking, true)
    else ColumnWidth(k.widthIconCol, true)
  }

  /**
   * setWidths on the column model `cm`: the number column, then the icon columns
   * 1 .. padleft - 1 (pinned), then the field columns from padleft on.
   */
  method SetWidths(cm: array<ColumnWidth>, ncWidth: int, widths: seq<string>, padleft: nat,
                   isRankingColumn: int -> bool, k: TableConstants)
    requires cm.Length >= 1 && padleft <= cm.Length
    modifies cm
    ensures forall i :: 0 <= i < cm.Length ==> cm[i] == ExpectedWidth(i, ncWidth, widths, padleft, isRankingColumn, k)
  {
    cm[0] := ColumnWidth(ncWidth, false);
    var i := 1;
    while i < padleft
      invariant 1 <= i <= cm.Length && (padleft >= 1 ==> i <= padleft)
      invariant cm[0] == ColumnWidth(ncWidth, false)
      invariant forall j :: 1 <= j < i ==> cm[j] == ExpectedWidth(j, ncWidth, widths, padleft, isRankingColumn, k)
    {
      if isRankingColumn(i) {
        cm[i] := ColumnWidth(k.widthIconColRanking, true);
      } else {
        cm[i] := ColumnWidth(k.widthIconCol, true);
      }
      i := i + 1;
    }
    for i := padleft to cm.Length
      invariant forall j :: 0 <= j < padleft ==> cm[j] == ExpectedWidth(j, ncWidth, widths, padleft, isRankingColumn, k)
      invariant forall j :: padleft <= j < i ==> cm[j] == ExpectedWidth(j, ncWidth, widths, padleft, isRankingColumn, k)
    {
      var w := k.defaultFieldLength;
      if i - padleft < |widths| {
        var parsed := ParseInt(widths[i - padleft]);
        if parsed.Some? {
          w := parsed.value;
        }
      }
      cm[i] := ColumnWidth(w, false);
    }
  }

  // ---------------------------------------------------------------- initial sort columns

  /** The first column whose type (getColumnType, None for null) equals the field, or -1. */
  function IconColumnIndex(field: string, columnTypes: seq<Option<string>>): (r: int)
    ensures r == -1 <==> forall j :: 0 <= j < |columnTypes| ==> columnTypes[j] != Some(field)
    ensures r != -1 ==>
      0 <= r < |columnTypes| && columnTypes[r] == Some(field)
      && forall j :: 0 <= j < r ==> columnTypes[j] != Some(field)
  {
    if columnTypes == [] then -1
    else if columnTypes[0] == Some(field) then 0
    else
      var r := IconColumnIndex(field, columnTypes[1..]);
      if r == -1 then -1 else r + 1
  }

  /** The column search of setupComparatorChooser for an icon-column sort field (lines 477-482). */
  method FindIconColumn(field: string, columnTypes: seq<Option<string>>) returns (index: int)
    ensures index == IconColumnIndex(field, columnTypes)
  {
    index := -1;
    var j := 0;
    while j < |columnTypes|
      invariant 0 <= j <= |columnTypes|
      invariant forall i :: 0 <= i < j ==> columnTypes[i] != Some(field)
    {
      if columnTypes[j] == Some(field) {
        index := j;
        IconColumnIndexIs(field, columnTypes, j);
        return;
      }
      j := j + 1;
    }
  }

  /** IconColumnIndex is determined by its contract. */
  lemma IconColumnIndexIs(field: string, columnTypes: seq<Option<string>>, j: nat)
    requires j < |columnTypes| && columnTypes[j] == Some(field)
    requires forall i :: 0 <= i < j ==> columnTypes[i] != Some(field)
    ensures IconColumnIndex(field, columnTypes) == j
  {
  }

  /** The column a sort field names: by getColumnIndex, or by column type for icon columns. */
  function SortColumnIndex(field: string, columnTypes: seq<Option<string>>,
                           getColumnIndex: string -> int, iconColumnPrefix: string): int
  {
    if !StartsWith(field, iconColumnPrefix) then getColumnIndex(field)
    else IconColumnIndex(field, columnTypes)
  }

  /** The comparators appended for the first n sort fields: (column, descending) pairs. */
  function InitialSortKeys(sortFields: seq<string>, sortDirections: seq<bool>, n: nat,
                           columnTypes: seq<Option<string>>, getColumnIndex: string -> int,
                           iconColumnPrefix: string): (r: seq<(int, bool)>)
    requires n <= |sortFields| == |sortDirections|
    ensures |r| <= n
    ensures forall p :: p in r ==> p.0 >= 0
  {
    if n == 0 then []
    else
      var rest := InitialSortKeys(sortFields, sortDirections, n - 1, columnTypes, getColumnIndex, iconColumnPrefix);
      var index := SortColumnIndex(sortFields[n - 1], columnTypes, getColumnIndex, iconColumnPrefix);
      if index >= 0 then rest + [(index, sortDirections[n - 1])] else rest
  }

  /**
   * The loop of setupComparatorChooser that installs the sort columns read from the
   * preferences: every field that names a column appends a comparator for it.
   */
  method InstallInitialSort(sortFields: seq<string>, sortDirections: seq<bool>,
                            columnTypes: seq<Option<string>>, getColumnIndex: string -> int,
                            iconColumnPrefix: string) returns (appended: seq<(int, bool)>)
    requires |sortFields| == |sortDirections|
    ensures appended == InitialSortKeys(sortFields, sortDirections, |sortFields|, columnTypes, getColumnIndex, iconColumnPrefix)
  {
    appended := [];
    for i := 0 to |sortFields|
      invariant appended == InitialSortKeys(sortFields, sortDirections, i, columnTypes, getColumnIndex, iconColumnPrefix)
    {
      var index := -1;
      if !StartsWith(sortFields[i], iconColumnPrefix) {
        index := getColumnIndex(sortFields[i]);
      } else {
        index := FindIconColumn(sortFields[i], columnTypes);
      }
      if index >= 0 {
        appended := appended + [(index, sortDirections[i])];
      }
    }
  }

  /** Every appended comparator belongs to one of the sort fields, with that field's direction. */
  lemma {:induction false} InitialSortKeysFromFields(sortFields: seq<string>, sortDirections: seq<bool>, n: nat,
                                                     columnTypes: seq<Option<string>>, getColumnIndex: string -> int,
                                                     iconColumnPrefix: string, p: (int, bool))
    requires n <= |sortFields| == |sortDirections|
    requires p in InitialSortKeys(sortFields, sortDirections, n, columnTypes, getColumnIndex, iconColumnPrefix)
    ensures exists i ::
      0 <= i < n
      && p.0 == SortColumnIndex(sortFields[i], columnTypes, getColumnIndex, iconColumnPrefix)
      && p.1 == sortDirections[i]
  {
    var rest := InitialSortKeys(sortFields, sortDirections, n - 1, columnTypes, getColumnIndex, iconColumnPrefix);
    if p in rest {
      InitialSortKeysFromFields(sortFields, sortDirections, n - 1, columnTypes, getColumnIndex, iconColumnPrefix, p);
      var i :| 0 <= i < n - 1
        && p.0 == SortColumnIndex(sortFields[i], columnTypes, getColumnIndex, iconColumnPrefix)
        && p.1 == sortDirections[i];
    } else {
      assert p.0 == SortColumnIndex(sortFields[n - 1], columnTypes, getColumnIndex, iconColumnPrefix);
    }
  }

  /** The indices of the first n sort fields that name a column, in preference order. */
  function FieldsNamingColumns(sortFields: seq<string>, n: nat, columnTypes: seq<Option<string>>,
                               getColumnIndex: string -> int, iconColumnPrefix: string): (r: seq<nat>)
    requires n <= |sortFields|
    ensures forall k :: 0 <= k < |r| ==> r[k] < n
    ensures forall k, l :: 0 <= k < l < |r| ==> r[k] < r[l]
    ensures forall i :: 0 <= i < n ==>
      (i in r <==> SortColumnIndex(sortFields[i], columnTypes, getColumnIndex, iconColumnPrefix) >= 0)
  {
    if n == 0 then []
    else
      var rest := FieldsNamingColumns(sortFields, n - 1, columnTypes, getColumnIndex, iconColumnPrefix);
      if SortColumnIndex(sortFields[n - 1], columnTypes, getColumnIndex, iconColumnPrefix) >= 0
      then rest + [n - 1] else rest
  }

  /**
   * The appended comparators are exactly those of the fields that name a column, one per
   * field and in preference order, each with its field's column and direction.
   */
  lemma {:induction false} InitialSortKeysByField(sortFields: seq<string>, sortDirections: seq<bool>, n: nat,
                                                  columnTypes: seq<Option<string>>, getColumnIndex: string -> int,
                                                  iconColumnPrefix: string)
    requires n <= |sortFields| == |sortDirections|
    ensures var keys := InitialSortKeys(sortFields, sortDirections, n, columnTypes, getColumnIndex, iconColumnPrefix);
      var fields := FieldsNamingColumns(sortFields, n, columnTypes, getColumnIndex, iconColumnPrefix);
      |keys| == |fields|
      && forall k :: 0 <= k < |fields| ==>
        keys[k] == (SortColumnIndex(sortFields[fields[k]], columnTypes, getColumnIndex, iconColumnPrefix),
                    sortDirections[fields[k]])
  {
    if n > 0 {
      InitialSortKeysByField(sortFields, sortDirections, n - 1, columnTypes, getColumnIndex, iconColumnPrefix);
      var rest := InitialSortKeys(sortFields, sortDirections, n - 1, columnTypes, getColumnIndex, iconColumnPrefix);
      var restFields := FieldsNamingColumns(sortFields, n - 1, columnTypes, getColumnIndex, iconColumnPrefix);
      var index := SortColumnIndex(sortFields[n - 1], columnTypes, getColumnIndex, iconColumnPrefix);
      if index >= 0 {
        var keys := rest + [(index, sortDirections[n - 1])];
        var fields := restFields + [n - 1];
        assert forall k :: 0 <= k < |restFields| ==> keys[k] == rest[k] && fields[k] == restFields[k];
        assert keys[|rest|] == (index, sortDirections[n - 1]) && fields[|restFields|] == n - 1;
      }
    }
  }

  /** Every sort field that names a column has its comparator appended, with its direction. */
  lemma InitialSortKeysComplete(sortFields: seq<string>, sortDirections: seq<bool>, n: nat,
                                columnTypes: seq<Option<string>>, getColumnIndex: string -> int,
                                iconColumnPrefix: string, i: nat)
    requires n <= |sortFields| == |sortDirections| && i < n
    requires SortColumnIndex(sortFields[i], columnTypes, getColumnIndex, iconColumnPrefix) >= 0
    ensures (SortColumnIndex(sortFields[i], columnTypes, getColumnIndex, iconColumnPrefix), sortDirections[i])
      in InitialSortKeys(sortFields, sortDirections, n, columnTypes, getColumnIndex, iconColumnPrefix)
  {
    var fields := FieldsNamingColumns(sortFields, n, columnTypes, getColumnIndex, iconColumnPrefix);
    InitialSortKeysByField(sortFields, sortDirections, n, columnTypes, getColumnIndex, iconColumnPrefix);
    var k :| 0 <= k < |fields| && fields[k] == i;
    assert InitialSortKeys(sortFields, sortDirections, n, columnTypes, getColumnIndex, iconColumnPrefix)[k]
      == (SortColumnIndex(sortFields[i], columnTypes, getColumnIndex, iconColumnPrefix), sortDirections[i]);
  }

  // ---------------------------------------------------------------- current sort and write-back

  /** getCurrentSortOrder: the reverse flag of every sorting column. */
  method GetCurrentSortOrder(sortCols: seq<int>, isColumnReverse: int -> bool) returns (order: seq<bool>)
    ensures |order| == |sortCols|
    ensures forall i :: 0 <= i < |sortCols| ==> order[i] == isColumnReverse(sortCols[i])
  {
    order := [];
    for i := 0 to |sortCols|
      invariant |order| == i
      invariant forall j :: 0 <= j < i ==> order[j] == isColumnReverse(sortCols[j])
    {
      order := order + [isColumnReverse(sortCols[i])];
    }
  }

  /** The lower-cased types of the sorting columns that have one, in order. */
  function SortFieldNames(sortCols: seq<int>, columnType: int -> Option<string>): (r: seq<string>)
    ensures |r| <= |sortCols|
  {
    if sortCols == [] then []
    else
      var rest := SortFieldNames(sortCols[..|sortCols| - 1], columnType);
      match columnType(sortCols[|sortCols| - 1])
      case Some(name) => rest + [ToLower(name)]
      case None => rest
  }

  /** getCurrentSortFields: columns without a type are skipped. */
  method GetCurrentSortFields(sortCols: seq<int>, columnType: int -> Option<string>) returns (fields: seq<string>)
    ensures fields == SortFieldNames(sortCols, columnType)
  {
    fields := [];
    for i := 0 to |sortCols|
      invariant fields == SortFieldNames(sortCols[..i], columnType)
    {
      assert sortCols[..i + 1][..i] == sortCols[..i];
      var name := columnType(sortCols[i]);
      if name.Some? {
        fields := fields + [ToLower(name.value)];
      }
    }
    assert sortCols[..|sortCols|] == sortCols;
  }

  /** When every sorting column has a type, there is one field per column. */
  lemma {:induction false} SortFieldNamesAllTyped(sortCols: seq<int>, columnType: int -> Option<string>)
    requires forall i :: 0 <= i < |sortCols| ==> columnType(sortCols[i]).Some?
    ensures |SortFieldNames(sortCols, columnType)| == |sortCols|
    ensures forall i :: 0 <= i < |sortCols| ==> SortFieldNames(sortCols, columnType)[i] == ToLower(columnType(sortCols[i]).value)
  {
    if sortCols != [] {
      SortFieldNamesAllTyped(sortCols[..|sortCols| - 1], columnType);
    }
  }

  /** The preference keys the sort write-back uses, and all others. */
  datatype PrefKey =
    | PrimarySortField | PrimarySortDescending
    | SecondarySortField | SecondarySortDescending
    | TertiarySortField | TertiarySortDescending
    | OtherKey(name: string)

  datatype PrefValue = StringValue(s: string) | BoolValue(b: bool)

  type Prefs = map<PrefKey, PrefValue>

  /**
   * The sort action listener: slot i gets fields[i] and order[i] when there are more than
   * i of both; the secondary and tertiary slots are cleared otherwise, the primary slot is
   * then left alone.
   */
  function SortPreferencesAfterSort(prefs: Prefs, fields: seq<string>, order: seq<bool>): (r: Prefs)
    ensures forall key: PrefKey :: key.OtherKey? ==> (key in r <==> key in prefs)
    ensures forall key: PrefKey :: key.OtherKey? && key in prefs ==> r[key] == prefs[key]
    ensures Min(|fields|, |order|) >= 1 ==>
      PrimarySortField in r && r[PrimarySortField] == StringValue(fields[0])
      && PrimarySortDescending in r && r[PrimarySortDescending] == BoolValue(order[0])
    ensures Min(|fields|, |order|) == 0 ==>
      (PrimarySortField in r <==> PrimarySortField in prefs)
      && (PrimarySortField in prefs ==> r[PrimarySortField] == prefs[PrimarySortField])
      && (PrimarySortDescending in r <==> PrimarySortDescending in prefs)
      && (PrimarySortDescending in prefs ==> r[PrimarySortDescending] == prefs[PrimarySortDescending])
    ensures SecondarySortField in r && SecondarySortDescending in r
    ensures Min(|fields|, |order|) >= 2 ==>
      r[SecondarySortField] == StringValue(fields[1]) && r[SecondarySortDescending] == BoolValue(order[1])
    ensures Min(|fields|, |order|) < 2 ==>
      r[SecondarySortField] == StringValue("") && r[SecondarySortDescending] == BoolValue(false)
    ensures TertiarySortField in r && TertiarySortDescending in r
    ensures Min(|fields|, |order|) >= 3 ==>
      r[TertiarySortField] == StringValue(fields[2]) && r[TertiarySortDescending] == BoolValue(order[2])
    ensures Min(|fields|, |order|) < 3 ==>
      r[TertiarySortField] == StringValue("") && r[TertiarySortDescending] == BoolValue(false)
  {
    var count := Min(|fields|, |order|);
    var p1 := if count >= 1
      then prefs[PrimarySortField := StringValue(fields[0])][PrimarySortDescending := BoolValue(order[0])]
      else prefs;
    var p2 := if count >= 2
      then p1[SecondarySortField := StringValue(fields[1])][SecondarySortDescending := BoolValue(order[1])]
      else p1[SecondarySortField := StringValue("")][SecondarySortDescending := BoolValue(false)];
    if count >= 3
      then p2[TertiarySortField := StringValue(fields[2])][TertiarySortDescending := BoolValue(order[2])]
      else p2[TertiarySortField := StringValue("")][TertiarySortDescending := BoolValue(false)]
  }

  /** Writing the same sort order back twice changes nothing the second time. */
  lemma SortWriteBackIdempotent(prefs: Prefs, fields: seq<string>, order: seq<bool>)
    ensures SortPreferencesAfterSort(SortPreferencesAfterSort(prefs, fields, order), fields, order)
      == SortPreferencesAfterSort(prefs, fields, order)
  {
    var r1 := SortPreferencesAfterSort(prefs, fields, order);
    var r2 := SortPreferencesAfterSort(r1, fields, order);
    assert r2.Keys == r1.Keys;
    forall key | key in r1 ensures r2[key] == r1[key] {
      if key.OtherKey? {
      } else if Min(|fields|, |order|) == 0 {
      }
    }
  }

  /** The sort fields setupComparatorChooser reads from the preferences (lines 459-463). */
  function StoredSortFields(prefs: Prefs): seq<Option<PrefValue>> {
    [Get(prefs, PrimarySortField), Get(prefs, SecondarySortField), Get(prefs, TertiarySortField)]
  }

  function Get(prefs: Prefs, key: PrefKey): Option<PrefValue> {
    if key in prefs then Some(prefs[key]) else None
  }

  /**
   * Round trip with the next start: after sorting by at least three typed columns, the
   * table reads back the first three lower-cased column types as its sort fields.
   */
  lemma SortFieldsReadBack(prefs: Prefs, sortCols: seq<int>, columnType: int -> Option<string>, order: seq<bool>)
    requires |sortCols| >= 3 && |order| == |sortCols|
    requires forall i :: 0 <= i < |sortCols| ==> columnType(sortCols[i]).Some?
    ensures var fields := SortFieldNames(sortCols, columnType);
      StoredSortFields(SortPreferencesAfterSort(prefs, fields, order))
        == seq(3, i requires 0 <= i < 3 => Some(StringValue(ToLower(columnType(sortCols[i]).value))))
  {
    SortFieldNamesAllTyped(sortCols, columnType);
  }

  /** A column type for the example below: column 0 has none, column 1 is the author. */
  function ExampleColumnType(col: int): Option<string> {
    if col == 0 then None else Some("author")
  }

  /** A reverse flag for the example below: column 0 is sorted descending, column 1 ascending. */
  function ExampleReverse(col: int): bool {
    col == 0
  }

  /**
   * Fields and directions are not kept aligned: a sorting column without a type drops out
   * of the fields, but not of the order. Sorting by column 0 (descending) and then by the
   * author column (ascending) stores "author" as primary field with the descending flag.
   */
  lemma SortDirectionOfUntypedColumnShifts()
    ensures SortFieldNames([0, 1], ExampleColumnType) == ["author"]
    ensures var order := [ExampleReverse(0), ExampleReverse(1)];
      var r := SortPreferencesAfterSort(map[], SortFieldNames([0, 1], ExampleColumnType), order);
      r[PrimarySortField] == StringValue("author") && r[PrimarySortDescending] == BoolValue(true)
      && !ExampleReverse(1)
  {
    var s := "author";
    assert ToLower(s) == s by {
      forall i | 0 <= i < |s| ensures ToLower(s)[i] == s[i] { }
    }
    assert [0, 1][..1] == [0];
    assert [0, 1][..1][..0] == [];
  }

  // ---------------------------------------------------------------- small helpers

  /**
   * getSortingColumn: the column at the given position of the sort hierarchy, or -1 when
   * fewer columns are sorted.
   */
  function GetSortingColumn(sortCols: seq<int>, number: nat): (r: int)
    ensures number < |sortCols| ==> r == sortCols[number]
    ensures number >= |sortCols| ==> r == -1
  {
    if |sortCols| <= number then -1 else sortCols[number]
  }

  /** With column numbers only, -1 means exactly that the position is not sorted. */
  lemma SortingColumnAbsent(sortCols: seq<int>, number: nat)
    requires forall i :: 0 <= i < |sortCols| ==> sortCols[i] >= 0
    ensures GetSortingColumn(sortCols, number) == -1 <==> number >= |sortCols|
  {
  }

  /** A java.awt.Color by its red, green and blue components. */
  datatype Color = Color(red: int, green: int, blue: int)

  predicate ValidColor(c: Color) {
    0 <= c.red <= 255 && 0 <= c.green <= 255 && 0 <= c.blue <= 255
  }

  /** x lies between a and b, whichever is larger. */
  predicate Between(x: int, a: int, b: int) {
    (a <= x <= b) || (b <= x <= a)
  }

  /** The component-wise mean, rounded down (the operands are never negative). */
  function Mix(a: int, b: int): (r: int)
    requires 0 <= a && 0 <= b
    ensures Min(a, b) <= r <= if a < b then b else a
    ensures r + r == a + b || r + r + 1 == a + b
  {
    (a + b) / 2
  }

  /** mixColors: a valid colour between the two, the same whichever comes first. */
  function MixColors(one: Color, two: Color): (r: Color)
    requires ValidColor(one) && ValidColor(two)
    ensures ValidColor(r)
    ensures Between(r.red, one.red, two.red) && Between(r.green, one.green, two.green)
      && Between(r.blue, one.blue, two.blue)
    ensures one == two ==> r == one
  {
    Color(Mix(one.red, two.red), Mix(one.green, two.green), Mix(one.blue, two.blue))
  }

  /** The order of the two colours does not matter. */
  lemma MixColorsCommute(one: Color, two: Color)
    requires ValidColor(one) && ValidColor(two)
    ensures MixColors(one, two) == MixColors(two, one)
  {
  }
}
