/**
 * NameFieldAutoCompleter: offers completions for name fields (author, editor). While
 * indexing an entry it stores every name in the permutations the preferences ask for
 * (last name first, first name first, abbreviated or full first names); while completing
 * it splits off everything up to the last name delimiter as a prefix.
 *
 * The index itself belongs to the superclass AbstractAutoCompleter and is modelled as the
 * log `index` of everything passed to addItemToIndex. AuthorList parsing is a parameter
 * `authorsOf` mapping a field value to its authors, each given by the name forms the
 * completer asks it for.
 */
module NameFieldAutoCompleter {
  import opened Wrappers
  import opened JavaStrings

  /** AutoCompleteFirstNameMode: which first-name form goes into the index. */
  datatype FirstnameMode = OnlyAbbreviated | OnlyFull | Both

  /** The three settings of AutoCompletePreferences the completer reads. */
  datatype Preferences = Preferences(completeFirstLast: bool, completeLastFirst: bool, firstnameMode: FirstnameMode)

  /**
   * An AuthorList.Author, by the name forms the completer uses: getLastOnly,
   * getLastFirst(true / false) and getFirstLast(true / false).
   */
  datatype Author = Author(lastOnly: string, lastFirstAbbr: string, lastFirstFull: string,
                           firstLastAbbr: string, firstLastFull: string)

  /** A BibtexEntry, by its fields: field name to field value; a missing key is a null field. */
  type Entry = map<string, string>

  /** The completion directions (first-last, last-first) the constructor derives from the preferences. */
  function Directions(p: Preferences): (r: (bool, bool))
    ensures r.0 || r.1
    ensures r.0 <==> p.completeFirstLast || !p.completeLastFirst
    ensures r.1 <==> !p.completeFirstLast
  {
    if p.completeFirstLast then (true, false)
    else if p.completeLastFirst then (false, true)
    else (true, true)
  }

  /** The forms of one name added for a first-name mode: abbreviated, full, or both in that order. */
  function ModeItems(mode: FirstnameMode, abbr: string, full: string): seq<string> {
    match mode
    case OnlyAbbreviated => [abbr]
    case OnlyFull => [full]
    case Both => [abbr, full]
  }

  /** How many forms of one name a first-name mode adds. */
  function ModeCount(mode: FirstnameMode): nat {
    if mode == Both then 2 else 1
  }

  lemma ModeItemsCount(mode: FirstnameMode, abbr: string, full: string)
    ensures |ModeItems(mode, abbr, full)| == ModeCount(mode)
    ensures abbr in ModeItems(mode, abbr, full) <== mode != OnlyFull
    ensures full in ModeItems(mode, abbr, full) <== mode != OnlyAbbreviated
  {
  }

  /** The separator between names in a query: " " in last-name-only mode, " and " otherwise. */
  function Delimiter(lastNameOnlyAndSeparationBySpace: bool): string {
    if lastNameOnlyAndSeparationBySpace then " " else " and "
  }

  /**
   * determinePrefixAndReturnRemainder as a function: the text is cut after the last
   * occurrence of the delimiter in its lower-cased form; the part up to and including the
   * delimiter is the prefix, the rest is what gets completed.
   */
  function SplitAtLastDelimiter(str: string, delimiter: string): (r: (string, string))
    ensures r.0 + r.1 == str
    ensures !Contains(ToLower(str), delimiter) ==> r.0 == [] && r.1 == str
    ensures Contains(ToLower(str), delimiter) ==> EndsWith(ToLower(r.0), delimiter)
    ensures delimiter != [] ==> !Contains(ToLower(r.1), delimiter)
  {
    var index := LastIndexOf(ToLower(str), delimiter);
    if index >= 0 then
      SplitAfterLastOccurrence(str, delimiter, index);
      (str[..index + |delimiter|], str[index + |delimiter|..])
    else
      (str[..0], str)
  }

  /** Cutting after the last occurrence: the halves join up, and the remainder holds no occurrence. */
  lemma SplitAfterLastOccurrence(str: string, delimiter: string, index: int)
    requires index == LastIndexOf(ToLower(str), delimiter) && index >= 0
    ensures var n := index + |delimiter|;
      && n <= |str|
      && str[..n] + str[n..] == str
      && EndsWith(ToLower(str[..n]), delimiter)
      && (delimiter != [] ==> !Contains(ToLower(str[n..]), delimiter))
  {
    var n := index + |delimiter|;
    PrefixEndsWithDelimiter(str, delimiter, index);
    assert str[..n] + str[n..] == str;
    if delimiter != [] {
      RemainderHasNoDelimiter(str, delimiter, index);
    }
  }

  lemma PrefixEndsWithDelimiter(str: string, delimiter: string, index: int)
    requires OccursAt(ToLower(str), delimiter, index)
    ensures EndsWith(ToLower(str[..index + |delimiter|]), delimiter)
  {
    var n := index + |delimiter|;
    ToLowerSlice(str, 0, n);
    assert ToLower(str[..n])[index..n] == ToLower(str)[index..n];
  }

  lemma RemainderHasNoDelimiter(str: string, delimiter: string, index: int)
    requires index == LastIndexOf(ToLower(str), delimiter) && index >= 0 && delimiter != []
    ensures !Contains(ToLower(str[index + |delimiter|..]), delimiter)
  {
    var n := index + |delimiter|;
    forall k | 0 <= k <= |str| - n ensures !OccursAt(ToLower(str[n..]), delimiter, k) {
      RemainderOccurrence(str, delimiter, n, k);
    }
  }

  /** An occurrence in the lower-cased remainder str[n..] is one in the lower-cased str at n + k. */
  lemma RemainderOccurrence(str: string, delimiter: string, n: nat, k: nat)
    requires n <= |str|
    ensures OccursAt(ToLower(str[n..]), delimiter, k) ==> OccursAt(ToLower(str), delimiter, n + k)
  {
    ToLowerSlice(str, n, |str|);
    if OccursAt(ToLower(str[n..]), delimiter, k) {
      assert ToLower(str)[n + k..n + k + |delimiter|] == ToLower(str[n..])[k..k + |delimiter|];
    }
  }

  /** The prefix ends exactly at the last occurrence of the delimiter. */
  lemma PrefixEndsAtLastDelimiter(str: string, delimiter: string)
    requires Contains(ToLower(str), delimiter)
    ensures var r := SplitAtLastDelimiter(str, delimiter);
      OccursAt(ToLower(str), delimiter, |r.0| - |delimiter|)
      && forall j :: |r.0| - |delimiter| < j <= |str| ==> !OccursAt(ToLower(str), delimiter, j)
  {
  }

  class Completer {
    const fieldNames: seq<string>
    /** Only last names are completed and names are separated by " " (the search form). */
    const lastNameOnlyAndSeparationBySpace: bool
    const autoCompFF: bool
    const autoCompLF: bool
    const autoCompFirstnameMode: FirstnameMode
    /** What the last completion split off, returned by getPrefix. */
    var prefix: string
    /** Everything passed to addItemToIndex, in order. */
    var index: seq<string>

    /** At least one completion direction is on, whatever the preferences. */
    ghost predicate Valid() {
      autoCompFF || autoCompLF
    }

    /** NameFieldAutoCompleter(String[], boolean, AutoCompletePreferences). */
    constructor (fieldNames: seq<string>, lastNameOnlyAndSeparationBySpace: bool, preferences: Preferences)
      ensures this.fieldNames == fieldNames
      ensures this.lastNameOnlyAndSeparationBySpace == lastNameOnlyAndSeparationBySpace
      ensures (autoCompFF, autoCompLF) == Directions(preferences)
      ensures autoCompFirstnameMode == preferences.firstnameMode
      ensures prefix == [] && index == []
      ensures Valid()
    {
      this.fieldNames := fieldNames;
      this.lastNameOnlyAndSeparationBySpace := lastNameOnlyAndSeparationBySpace;
      if preferences.completeFirstLast {
        autoCompFF := true;
        autoCompLF := false;
      } else if preferences.completeLastFirst {
        autoCompFF := false;
        autoCompLF := true;
      } else {
        autoCompFF := true;
        autoCompLF := true;
      }
      autoCompFirstnameMode := preferences.firstnameMode;
      prefix := "";
      index := [];
    }

    /** NameFieldAutoCompleter(String, AutoCompletePreferences): one field, entry-editor mode. */
    constructor Single(fieldName: string, preferences: Preferences)
      ensures fieldNames == [fieldName] && !lastNameOnlyAndSeparationBySpace
      ensures (autoCompFF, autoCompLF) == Directions(preferences)
      ensures autoCompFirstnameMode == preferences.firstnameMode
      ensures prefix == [] && index == []
      ensures Valid()
    {
      fieldNames := [fieldName];
      lastNameOnlyAndSeparationBySpace := false;
      var d := Directions(preferences);
      autoCompFF, autoCompLF := d.0, d.1;
      autoCompFirstnameMode := preferences.firstnameMode;
      prefix := "";
      index := [];
    }

    /** A field holding one unit: entry fields are, the space-separated search form is not. */
    function IsSingleUnitField(): (r: bool)
      ensures r <==> Delimiter(lastNameOnlyAndSeparationBySpace) == " and "
    {
      !lastNameOnlyAndSeparationBySpace
    }

    /** getFieldName: the first field name; None where Java would index an empty array. */
    function GetFieldName(): (r: Option<string>)
      ensures r.Some? <==> |fieldNames| > 0
      ensures r.Some? ==> r.value == fieldNames[0] && r.value in fieldNames
    {
      if |fieldNames| > 0 then Some(fieldNames[0]) else None
    }

    /** getPrefix. */
    function GetPrefix(): (r: string)
      reads this
      ensures r == prefix
    {
      prefix
    }

    // ---------------------------------------------------------------- indexing

    /** The index items added for one author. */
    function AuthorItems(a: Author): seq<string> {
      if lastNameOnlyAndSeparationBySpace then [a.lastOnly]
      else
        (if autoCompLF then ModeItems(autoCompFirstnameMode, a.lastFirstAbbr, a.lastFirstFull) else [])
        + (if autoCompFF then ModeItems(autoCompFirstnameMode, a.firstLastAbbr, a.firstLastFull) else [])
    }

    /** How many items each author adds. */
    function PerAuthor(): (n: nat)
      ensures Valid() ==> n >= 1
    {
      if lastNameOnlyAndSeparationBySpace then 1
      else
        var k := ModeCount(autoCompFirstnameMode);
        (if autoCompLF then k else 0) + (if autoCompFF then k else 0)
    }

    /** The items added for a list of authors, in author order. */
    function AuthorsItems(authors: seq<Author>): seq<string> {
      if authors == [] then []
      else AuthorsItems(authors[..|authors| - 1]) + AuthorItems(authors[|authors| - 1])
    }

    /** The items added for the given fields of an entry, in field order. */
    function FieldsItems(e: Entry, names: seq<string>, authorsOf: string -> seq<Author>): seq<string> {
      if names == [] then []
      else
        var last := names[|names| - 1];
        FieldsItems(e, names[..|names| - 1], authorsOf)
          + (if last in e then AuthorsItems(authorsOf(e[last])) else [])
    }

    /** The items added for an entry (nothing for a null entry). */
    function EntryItems(entry: Option<Entry>, authorsOf: string -> seq<Author>): seq<string> {
      match entry
      case None => []
      case Some(e) => FieldsItems(e, fieldNames, authorsOf)
    }

    /** addItemToIndex, which lives in the superclass: the item is appended to the log. */
    method AddItemToIndex(item: string)
      modifies this`index
      ensures index == old(index) + [item]
    {
      index := index + [item];
    }

    /** The body of addBibtexEntry's author loop: the forms of one author. */
    method AddAuthor(author: Author)
      modifies this`index
      ensures index == old(index) + AuthorItems(author)
    {
      if lastNameOnlyAndSeparationBySpace {
        AddItemToIndex(author.lastOnly);
      } else {
        if autoCompLF {
          match autoCompFirstnameMode
          case OnlyAbbreviated =>
            AddItemToIndex(author.lastFirstAbbr);
          case OnlyFull =>
            AddItemToIndex(author.lastFirstFull);
          case Both =>
            AddItemToIndex(author.lastFirstAbbr);
            AddItemToIndex(author.lastFirstFull);
        }
        if autoCompFF {
          match autoCompFirstnameMode
          case OnlyAbbreviated =>
            AddItemToIndex(author.firstLastAbbr);
          case OnlyFull =>
            AddItemToIndex(author.firstLastFull);
          case Both =>
            AddItemToIndex(author.firstLastAbbr);
            AddItemToIndex(author.firstLastFull);
        }
      }
    }

    /** addBibtexEntry's loop over the authors of one field. */
    method AddAuthors(authors: seq<Author>)
      modifies this`index
      ensures index == old(index) + AuthorsItems(authors)
    {
      ghost var start := index;
      for j := 0 to |authors|
        invariant index == start + AuthorsItems(authors[..j])
      {
        AuthorsItemsSnoc(authors, j);
        ConcatAssoc(start, AuthorsItems(authors[..j]), AuthorItems(authors[j]));
        AddAuthor(authors[j]);
      }
      assert authors[..|authors|] == authors;
    }

    lemma AuthorsItemsSnoc(authors: seq<Author>, j: nat)
      requires j < |authors|
      ensures AuthorsItems(authors[..j + 1]) == AuthorsItems(authors[..j]) + AuthorItems(authors[j])
    {
      assert authors[..j + 1][..j] == authors[..j];
    }

    /** addBibtexEntry: every author of every present name field, in the selected forms. */
    method AddBibtexEntry(entry: Option<Entry>, authorsOf: string -> seq<Author>)
      modifies this`index
      ensures index == old(index) + EntryItems(entry, authorsOf)
    {
      if entry.None? {
        return;
      }
      var e := entry.value;
      ghost var start := index;
      for i := 0 to |fieldNames|
        invariant index == start + FieldsItems(e, fieldNames[..i], authorsOf)
      {
        var fieldName := fieldNames[i];
        FieldsItemsSnoc(e, fieldNames, i, authorsOf);
        if fieldName in e {
          ConcatAssoc(start, FieldsItems(e, fieldNames[..i], authorsOf), AuthorsItems(authorsOf(e[fieldName])));
          AddAuthors(authorsOf(e[fieldName]));
        }
      }
      assert fieldNames[..|fieldNames|] == fieldNames;
    }

    lemma FieldsItemsSnoc(e: Entry, names: seq<string>, i: nat, authorsOf: string -> seq<Author>)
      requires i < |names|
      ensures FieldsItems(e, names[..i + 1], authorsOf)
        == FieldsItems(e, names[..i], authorsOf) + (if names[i] in e then AuthorsItems(authorsOf(e[names[i]])) else [])
    {
      assert names[..i + 1][..i] == names[..i];
    }

    /** Every author adds the same number of items. */
    lemma AuthorItemsCount(a: Author)
      ensures |AuthorItems(a)| == PerAuthor()
    {
      ModeItemsCount(autoCompFirstnameMode, a.lastFirstAbbr, a.lastFirstFull);
      ModeItemsCount(autoCompFirstnameMode, a.firstLastAbbr, a.firstLastFull);
    }

    /** A list of authors adds PerAuthor() items per author. */
    lemma {:induction false} AuthorsItemsCount(authors: seq<Author>)
      ensures |AuthorsItems(authors)| == |authors| * PerAuthor()
    {
      if authors != [] {
        var n, m := PerAuthor(), |authors| - 1;
        AuthorsItemsCount(authors[..m]);
        AuthorItemsCount(authors[m]);
        assert AuthorsItems(authors) == AuthorsItems(authors[..m]) + AuthorItems(authors[m]);
        MulSucc(m, n);
      }
    }

    /** The items of author j form the j-th block of PerAuthor() consecutive items. */
    lemma {:induction false} AuthorsItemsBlock(authors: seq<Author>, j: nat)
      requires j < |authors|
      ensures var n := PerAuthor();
        (j + 1) * n <= |AuthorsItems(authors)| && AuthorsItems(authors)[j * n..(j + 1) * n] == AuthorItems(authors[j])
    {
      var n := PerAuthor();
      var whole, upTo := AuthorsItems(authors), AuthorsItems(authors[..j + 1]);
      AuthorsItemsCount(authors[..j]);
      AuthorItemsCount(authors[j]);
      AuthorsItemsSnoc(authors, j);
      var lo, hi := j * n, (j + 1) * n;
      MulSucc(j, n);
      assert |AuthorsItems(authors[..j])| == lo && hi == lo + n && |upTo| == hi;
      SliceOfConcatRight(AuthorsItems(authors[..j]), AuthorItems(authors[j]));
      assert upTo[lo..hi] == AuthorItems(authors[j]);
      AuthorsItemsPrefix(authors, j + 1);
      assert whole[lo..hi] == upTo[lo..hi];
    }

    /** The items of the first k authors are a prefix of the items of all of them. */
    lemma {:induction false} AuthorsItemsPrefix(authors: seq<Author>, k: nat)
      requires k <= |authors|
      ensures var p := AuthorsItems(authors[..k]);
        |p| <= |AuthorsItems(authors)| && AuthorsItems(authors)[..|p|] == p
      decreases |authors| - k
    {
      if k == |authors| {
        assert authors[..k] == authors;
      } else {
        AuthorsItemsPrefix(authors, k + 1);
        AuthorsItemsSnoc(authors, k);
        var p, q := AuthorsItems(authors[..k]), AuthorsItems(authors[..k + 1]);
        SliceOfConcatLeft(p, AuthorItems(authors[k]), 0, |p|);
        PrefixOfPrefix(AuthorsItems(authors), q, p);
      }
    }

    /** In entry-editor mode each author's last-first items come before its first-last items. */
    lemma LastFirstBeforeFirstLast(a: Author)
      requires !lastNameOnlyAndSeparationBySpace && autoCompLF && autoCompFF
      ensures var k := ModeCount(autoCompFirstnameMode);
        |AuthorItems(a)| == 2 * k
        && AuthorItems(a)[..k] == ModeItems(autoCompFirstnameMode, a.lastFirstAbbr, a.lastFirstFull)
        && AuthorItems(a)[k..] == ModeItems(autoCompFirstnameMode, a.firstLastAbbr, a.firstLastFull)
    {
      ModeItemsCount(autoCompFirstnameMode, a.lastFirstAbbr, a.lastFirstFull);
      ModeItemsCount(autoCompFirstnameMode, a.firstLastAbbr, a.firstLastFull);
    }

    /** In search-form mode an entry adds exactly the last names of its authors. */
    lemma {:induction false} LastNameOnlyItems(authors: seq<Author>)
      requires lastNameOnlyAndSeparationBySpace
      ensures |AuthorsItems(authors)| == |authors|
      ensures forall j :: 0 <= j < |authors| ==> AuthorsItems(authors)[j] == authors[j].lastOnly
    {
      if authors != [] {
        LastNameOnlyItems(authors[..|authors| - 1]);
      }
    }

    /** An entry holding none of the completer's fields adds nothing. */
    lemma {:induction false} NoFieldsNoItems(e: Entry, names: seq<string>, authorsOf: string -> seq<Author>)
      requires forall i :: 0 <= i < |names| ==> names[i] !in e
      ensures FieldsItems(e, names, authorsOf) == []
    {
      if names != [] {
        NoFieldsNoItems(e, names[..|names| - 1], authorsOf);
      }
    }

    // ---------------------------------------------------------------- completing

    /** determinePrefixAndReturnRemainder: sets the prefix and returns the text after it. */
    method DeterminePrefixAndReturnRemainder(str: string, delimiter: string) returns (rest: string)
      modifies this`prefix
      ensures (prefix, rest) == SplitAtLastDelimiter(str, delimiter)
      ensures prefix + rest == str
    {
      var lowered := ToLower(str);
      var index := LastIndexOf(lowered, delimiter);
      if index >= 0 {
        prefix := str[..index + |delimiter|];
        rest := str[index + |delimiter|..];
      } else {
        prefix := "";
        rest := str;
      }
    }

    /**
     * The part of complete this class adds: the prefix is split off at the mode's
     * delimiter, and the remainder is what the superclass completes.
     */
    method Complete(toComplete: string) returns (query: string)
      modifies this`prefix
      ensures (prefix, query) == SplitAtLastDelimiter(toComplete, Delimiter(lastNameOnlyAndSeparationBySpace))
      ensures prefix + query == toComplete
    {
      if lastNameOnlyAndSeparationBySpace {
        query := DeterminePrefixAndReturnRemainder(toComplete, " ");
      } else {
        query := DeterminePrefixAndReturnRemainder(toComplete, " and ");
      }
    }
  }
}
