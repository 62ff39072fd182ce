/**
 * The player page's item tables: the `.cnf` files that map item types to icon files and
 * to display names, read line by line into two mutable lookup tables, and the lookups
 * that prefer a `type:damage` entry, then the type's entry, then a fallback.
 */
module ItemTables {
  import opened Wrappers
  import opened Text

  /** The directory the icon file names are relative to. */
  const IconBase: string := "./img/" + "items/"
  /** The icon shown when an item type has no entry. */
  const DefaultIcon: string := "barrier" + ".png"

  /**
   * What one line of a `.cnf` file contributes: nothing for a comment or a blank line,
   * nothing for a line without '=', otherwise the trimmed first two '='-fields.
   */
  function LineEntry(line: string): (r: Option<(string, string)>)
    ensures StartsWith(JsTrim(line), "#") || JsTrim(line) == "" ==> r.None?
    ensures '=' !in line ==> r.None?
    ensures r.Some? ==> '=' !in r.value.0 && '=' !in r.value.1
  {
    var t := JsTrim(line);
    if StartsWith(t, "#") || t == "" then None
    else
      var parts := Fields(line, '=');
      FieldsJoin(line, '=');
      if '=' !in line then FieldsOfSepFree(line, '='); None
      else if |parts| >= 2 then
        JsTrimWithin(parts[0]);
        JsTrimWithin(parts[1]);
        Some((JsTrim(parts[0]), JsTrim(parts[1])))
      else None
  }

  /** Trimming only removes characters, so it adds no new one. */
  lemma {:induction false} JsTrimWithin(s: string)
    ensures forall c :: c in JsTrim(s) ==> c in s
    decreases |s|
  {
    if |s| > 0 && IsJsSpace(s[0]) {
      JsTrimWithin(s[1..]);
    } else if |s| > 0 && IsJsSpace(s[|s| - 1]) {
      JsTrimWithin(s[..|s| - 1]);
    }
  }

  /** The table after the lines were read in order, starting from `table`. */
  function Apply(table: map<string, string>, lines: seq<string>): map<string, string>
    decreases |lines|
  {
    if |lines| == 0 then table
    else
      var before := Apply(table, lines[..|lines| - 1]);
      match LineEntry(lines[|lines| - 1])
      case None => before
      case Some((k, v)) => before[k := v]
  }

  /** The value the last line with key `key` gives it, if any line does. */
  function LastEntry(lines: seq<string>, key: string): Option<string>
    decreases |lines|
  {
    if |lines| == 0 then None
    else match LineEntry(lines[|lines| - 1])
      case Some((k, v)) => if k == key then Some(v) else LastEntry(lines[..|lines| - 1], key)
      case None => LastEntry(lines[..|lines| - 1], key)
  }

  /**
   * Reading lines into a table: a key some line gives ends up with the value of the
   * last such line; every other key keeps what the table had.
   */
  lemma {:induction false} ApplyLookup(table: map<string, string>, lines: seq<string>, key: string)
    ensures key in Apply(table, lines) <==> LastEntry(lines, key).Some? || key in table
    ensures LastEntry(lines, key).Some? ==> Apply(table, lines)[key] == LastEntry(lines, key).value
    ensures LastEntry(lines, key).None? && key in table ==> Apply(table, lines)[key] == table[key]
    decreases |lines|
  {
    if |lines| > 0 {
      ApplyLookup(table, lines[..|lines| - 1], key);
    }
  }

  /** A comment or blank line leaves the table as it is. */
  lemma CommentLineIgnored(table: map<string, string>, lines: seq<string>, line: string)
    requires StartsWith(JsTrim(line), "#") || JsTrim(line) == ""
    ensures Apply(table, lines + [line]) == Apply(table, lines)
  {
    assert (lines + [line])[..|lines|] == lines;
  }

  /**
   * A value ends at the next '=': the line `k=v=w` maps `k` to `v` (both trimmed) and
   * the text after the second '=' is lost.
   */
  lemma ValueStopsAtSecondEquals(k: string, v: string, w: string)
    requires '=' !in k && '=' !in v
    requires var t := JsTrim(k + "=" + v + "=" + w); !StartsWith(t, "#") && t != ""
    ensures LineEntry(k + "=" + v + "=" + w) == Some((JsTrim(k), JsTrim(v)))
  {
    var line := k + "=" + v + "=" + w;
    assert line == k + ['='] + (v + ['='] + w);
    assert line[|k|] == '=';
    FieldsCons(k, '=', v + ['='] + w);
    FieldsCons(v, '=', w);
  }

  /** The `type:damage` key of an item with a positive damage value. */
  function DamageKey(typeName: string, damage: nat): string {
    typeName + ":" + NatToString(damage)
  }

  /** A JavaScript object lookup used as a condition: present and not the empty string. */
  predicate Hit(table: map<string, string>, key: string) {
    key in table && table[key] != ""
  }

  /**
   * The entry a lookup uses: the `type:damage` entry when the damage is positive and it
   * has one, else the type's entry, else none.
   */
  function Lookup(table: map<string, string>, typeName: string, damage: Option<int>): (r: Option<string>)
    ensures r.Some? ==> r.value != ""
    ensures damage.Some? && damage.value > 0 && Hit(table, DamageKey(typeName, damage.value)) ==>
      r == Some(table[DamageKey(typeName, damage.value)])
    ensures !(damage.Some? && damage.value > 0 && Hit(table, DamageKey(typeName, damage.value))) ==>
      r == (if Hit(table, typeName) then Some(table[typeName]) else None)
  {
    if damage.Some? && damage.value > 0 && Hit(table, DamageKey(typeName, damage.value)) then
      Some(table[DamageKey(typeName, damage.value)])
    else if Hit(table, typeName) then Some(table[typeName])
    else None
  }

  /** A missing, zero or negative damage never selects a `type:damage` entry. */
  lemma NoDamageUsesType(table: map<string, string>, typeName: string, damage: Option<int>)
    requires damage.None? || damage.value <= 0
    ensures Lookup(table, typeName, damage) == Lookup(table, typeName, None)
  {
  }

  /** Keys with a damage suffix never shadow the plain type: only positive damage reaches them. */
  lemma DamageEntryFallsBack(table: map<string, string>, typeName: string, damage: nat)
    requires damage > 0 && !Hit(table, DamageKey(typeName, damage))
    ensures Lookup(table, typeName, Some(damage)) == Lookup(table, typeName, None)
  {
  }

  /** The two item tables of the player page; both start empty. */
  class ItemTableSet {
    var iconMapping: map<string, string>
    var translations: map<string, string>

    constructor ()
      ensures iconMapping == map[] && translations == map[]
    {
      iconMapping := map[];
      translations := map[];
    }

    /** `translateItemName`: the translation found, or the type itself. */
    function TranslateItemName(typeName: string, damage: Option<int>): (r: string)
      reads this
      ensures Lookup(translations, typeName, damage).None? ==> r == typeName
      ensures Lookup(translations, typeName, damage).Some? ==> r == Lookup(translations, typeName, damage).value
      ensures r != "" || typeName == ""
    {
      match Lookup(translations, typeName, damage)
      case Some(name) => name
      case None => typeName
    }

    /** `getItemIconUrl`: the icon file found, or the barrier icon, under the icon directory. */
    function GetItemIconUrl(typeName: string, damage: Option<int>): (r: string)
      reads this
      ensures StartsWith(r, IconBase)
      ensures Lookup(iconMapping, typeName, damage).None? ==> r == IconBase + DefaultIcon
      ensures Lookup(iconMapping, typeName, damage).Some? ==> r == IconBase + Lookup(iconMapping, typeName, damage).value
    {
      match Lookup(iconMapping, typeName, damage)
      case Some(file) => IconBase + file
      case None => IconBase + DefaultIcon
    }

    /**
     * Loading the icon table: the text of the fetched file, or None when the fetch
     * failed, which resets the table to empty.
     */
    method LoadIconMapping(text: Option<string>)
      modifies this
      ensures iconMapping == (if text.None? then map[] else Apply(old(iconMapping), Fields(text.value, '\n')))
      ensures translations == old(translations)
    {
      if text.None? {
        iconMapping := map[];
        return;
      }
      iconMapping := ReadLines(iconMapping, text.value);
    }

    /** Loading the translation table, in the same way. */
    method LoadTranslations(text: Option<string>)
      modifies this
      ensures translations == (if text.None? then map[] else Apply(old(translations), Fields(text.value, '\n')))
      ensures iconMapping == old(iconMapping)
    {
      if text.None? {
        translations := map[];
        return;
      }
      translations := ReadLines(translations, text.value);
    }
  }

  /** The `forEach` over the lines of a file, storing each entry into the table. */
  method ReadLines(table: map<string, string>, text: string) returns (result: map<string, string>)
    ensures result == Apply(table, Fields(text, '\n'))
  {
    var lines := Fields(text, '\n');
    result := table;
    var i := 0;
    while i < |lines|
      invariant 0 <= i <= |lines|
      invariant result == Apply(table, lines[..i])
    {
      assert lines[..i + 1][..i] == lines[..i];
      match LineEntry(lines[i]) {
        case Some((k, v)) => result := result[k := v];
        case None =>
      }
      i := i + 1;
    }
    assert lines[..i] == lines;
  }
}
