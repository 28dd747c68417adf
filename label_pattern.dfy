/**
 * AbstractLabelPattern: a small table from entry type to a label pattern, stored already
 * split into its parts, plus an optional default pattern.
 *
 * LabelPatternUtil.split is not part of this model; it is the function `split`, fixed when
 * the table is made. A Java `null` default pattern is None. getAllKeys returns an
 * Enumeration whose order Hashtable does not fix, so it is modelled as the set of keys.
 */
module LabelPattern {
  import opened Wrappers

  class LabelPatternTable {
    /** LabelPatternUtil.split: a pattern string cut into the parts of a label. */
    const split: string -> seq<string>
    /** The customised patterns: entry type to split pattern. */
    var data: map<string, seq<string>>
    /** The default pattern, None until one is set. */
    var defaultPattern: Option<seq<string>>

    constructor (split: string -> seq<string>)
      ensures this.split == split
      ensures data == map[] && defaultPattern == None
    {
      this.split := split;
      data := map[];
      defaultPattern := None;
    }

    /** addLabelPattern: the type now maps to the split pattern, replacing any earlier one. */
    method AddLabelPattern(entryType: string, pattern: string)
      modifies this`data
      ensures data == old(data)[entryType := split(pattern)]
      ensures !IsDefaultValue(entryType) && data[entryType] == split(pattern)
      ensures forall k :: k != entryType ==> (k in data <==> k in old(data))
      ensures forall k :: k != entryType && k in data ==> data[k] == old(data)[k]
    {
      data := data[entryType := split(pattern)];
    }

    /** removeLabelPattern: the type goes back to the default; an absent type changes nothing. */
    method RemoveLabelPattern(entryType: string)
      modifies this`data
      ensures data == old(data) - {entryType}
      ensures IsDefaultValue(entryType)
      ensures entryType !in old(data) ==> data == old(data)
      ensures forall k :: k != entryType ==> (k in data <==> k in old(data))
      ensures forall k :: k != entryType && k in data ==> data[k] == old(data)[k]
    {
      if entryType in data {
        data := data - {entryType};
      }
    }

    /** isDefaultValue: the key has no customised pattern. */
    function IsDefaultValue(key: string): (r: bool)
      reads this
      ensures r <==> key !in GetAllKeys()
    {
      key !in data
    }

    /** getDefaultValue: None until setDefaultValue has been called. */
    function GetDefaultValue(): (r: Option<seq<string>>)
      reads this
      ensures r.Some? <==> defaultPattern.Some?
      ensures r.Some? ==> r.value == defaultPattern.value
    {
      defaultPattern
    }

    /** setDefaultValue: the default becomes the split pattern; the table is untouched. */
    method SetDefaultValue(labelPattern: string)
      modifies this`defaultPattern
      ensures GetDefaultValue() == Some(split(labelPattern))
      ensures data == old(data)
    {
      defaultPattern := Some(split(labelPattern));
    }

    /** getAllKeys: exactly the customised types. */
    function GetAllKeys(): (r: set<string>)
      reads this
      ensures forall k :: k in r <==> k in data
    {
      data.Keys
    }
  }
}
