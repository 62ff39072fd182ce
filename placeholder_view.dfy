/**
 * The placeholder panel of the player page: which name a placeholder is shown under,
 * when its value counts as unresolved, how values are formatted, and the list of
 * elements the panel shows, in priority order.
 */
module PlaceholderView {
  import opened Wrappers
  import opened Text

  /** A placeholder as the page receives it; a missing property is None. */
  datatype Entry = Entry(
    id: string, name: Option<string>, enabled: Option<bool>, icon: Option<string>,
    priority: Option<int>, value: Option<string>)

  // ---- Garbled names ----

  /** `^[a-z][a-z0-9_]*$`: text that looks like an identifier. */
  predicate IdLike(t: string) {
    |t| > 0 && 'a' <= t[0] <= 'z' &&
    forall k :: 1 <= k < |t| ==> ('a' <= t[k] <= 'z') || ('0' <= t[k] <= '9') || t[k] == '_'
  }

  /** `[�\u0000-\u0008\u000B-\u000C\u000E-\u001F]`: a replacement or control character. */
  predicate SuspiciousChar(c: char) {
    c == '\U{FFFD}' || ('\U{0000}' <= c <= '\U{0008}') || ('\U{000B}' <= c <= '\U{000C}') ||
    ('\U{000E}' <= c <= '\U{001F}')
  }

  predicate HasSuspicious(t: string) {
    exists k :: 0 <= k < |t| && SuspiciousChar(t[k])
  }

  /** `^[à-ï\u0080-¿]{2,}$`: UTF-8 bytes read as Latin-1. */
  predicate LatinRun(t: string) {
    |t| >= 2 && forall k :: 0 <= k < |t| ==> ('\U{00E0}' <= t[k] <= '\U{00EF}') || ('\U{0080}' <= t[k] <= '\U{00BF}')
  }

  /** `^(\?+|#+|\x00+)$`. */
  predicate Filler(t: string) {
    |t| > 0 && ((forall k :: 0 <= k < |t| ==> t[k] == '?') || (forall k :: 0 <= k < |t| ==> t[k] == '#') ||
                (forall k :: 0 <= k < |t| ==> t[k] == '\U{0000}'))
  }

  /** The one mis-decoded character the garbling test names that survived in the file. */
  const MisdecodedChar: char := '\U{022F}'

  /**
   * `isGarbledText` as written: among its tests are three `text.includes('')`, whose
   * argument is the empty string, so they hold for every text.
   */
  predicate IsGarbledAsWritten(text: Option<string>) {
    text.None? || text.value == "" || IdLike(text.value) || HasSuspicious(text.value) ||
    Contains(text.value, "") || Contains(text.value, "") || Contains(text.value, [MisdecodedChar]) ||
    Contains(text.value, "") || LatinRun(text.value) || Filler(text.value)
  }

  /** As written, every text counts as garbled. */
  lemma AsWrittenAllGarbled(text: Option<string>)
    ensures IsGarbledAsWritten(text)
  {
    if text.Some? && text.value != "" {
      assert StartsWith(text.value, "");
    }
  }

  /** `isGarbledText` without the three empty-string tests. */
  predicate IsGarbled(text: Option<string>) {
    text.None? || text.value == "" || IdLike(text.value) || HasSuspicious(text.value) ||
    MisdecodedChar in text.value || LatinRun(text.value) || Filler(text.value)
  }

  /** The corrected test still refuses what the written one was meant to: no text, and identifiers. */
  lemma IdentifiersGarbled(t: string)
    requires t == "" || IdLike(t)
    ensures IsGarbled(Some(t)) && IsGarbledAsWritten(Some(t))
  {
    AsWrittenAllGarbled(Some(t));
  }

  /** A name written in CJK (or any script above Latin-1) is readable under the corrected test. */
  lemma WideScriptNameReadable(t: string)
    requires |t| > 0
    requires forall k :: 0 <= k < |t| ==> '\U{0100}' <= t[k] && t[k] != MisdecodedChar && t[k] != '\U{FFFD}'
    ensures !IsGarbled(Some(t))
  {
    assert !LatinRun(t) by {
      assert !(('\U{00E0}' <= t[0] <= '\U{00EF}') || ('\U{0080}' <= t[0] <= '\U{00BF}'));
    }
    assert t[0] != '?' && t[0] != '#' && t[0] != '\U{0000}';
  }

  // ---- Effective names ----

  /** A JavaScript object lookup used as a condition: present and not the empty string. */
  predicate Hit(table: map<string, string>, key: string) {
    key in table && table[key] != ""
  }

  /** The fallbacks after the placeholder's own name: the given mapping, the static one, the id. */
  function MappedName(id: string, nameMapping: Option<map<string, string>>, staticNames: map<string, string>): (r: string)
    ensures nameMapping.Some? && Hit(nameMapping.value, id) ==> r == nameMapping.value[id]
    ensures !(nameMapping.Some? && Hit(nameMapping.value, id)) && Hit(staticNames, id) ==> r == staticNames[id]
    ensures !(nameMapping.Some? && Hit(nameMapping.value, id)) && !Hit(staticNames, id) ==> r == id
  {
    if nameMapping.Some? && Hit(nameMapping.value, id) then nameMapping.value[id]
    else if Hit(staticNames, id) then staticNames[id]
    else id
  }

  /** The chain of `getEffectiveName`, given the verdict on the own name. */
  function NameChain(garbled: bool, data: Entry, nameMapping: Option<map<string, string>>, staticNames: map<string, string>): string {
    if !garbled && data.name.Some? && data.name.value != data.id then data.name.value
    else MappedName(data.id, nameMapping, staticNames)
  }

  /** `getEffectiveName` as written. */
  function EffectiveNameAsWritten(data: Entry, nameMapping: Option<map<string, string>>, staticNames: map<string, string>): string {
    NameChain(IsGarbledAsWritten(data.name), data, nameMapping, staticNames)
  }

  /** As written, the placeholder's own name is never shown: only the mappings or the id are. */
  lemma AsWrittenIgnoresOwnName(data: Entry, nameMapping: Option<map<string, string>>, staticNames: map<string, string>)
    ensures EffectiveNameAsWritten(data, nameMapping, staticNames) == MappedName(data.id, nameMapping, staticNames)
  {
    AsWrittenAllGarbled(data.name);
  }

  /** `getEffectiveName` with the corrected garbling test. */
  function EffectiveName(data: Entry, nameMapping: Option<map<string, string>>, staticNames: map<string, string>): (r: string)
    ensures !IsGarbled(data.name) && data.name != Some(data.id) ==> r == data.name.value
    ensures IsGarbled(data.name) || data.name == Some(data.id) ==> r == MappedName(data.id, nameMapping, staticNames)
  {
    NameChain(IsGarbled(data.name), data, nameMapping, staticNames)
  }

  /** A placeholder called "economy" named in Chinese, with no mapping: the two versions differ. */
  lemma OwnNameDiscrepancy()
    ensures var data := Entry("economy", Some("\U{91D1}\U{5E01}"), Some(true), None, None, None);
      EffectiveNameAsWritten(data, None, map[]) == "economy" &&
      EffectiveName(data, None, map[]) == "\U{91D1}\U{5E01}"
  {
    var data := Entry("economy", Some("\U{91D1}\U{5E01}"), Some(true), None, None, None);
    AsWrittenIgnoresOwnName(data, None, map[]);
    WideScriptNameReadable("\U{91D1}\U{5E01}");
  }

  // ---- Values ----

  /** `isUnresolvedPlaceholder`: not a string, empty, `%…%`, or starting with '$'. */
  predicate IsUnresolved(value: Option<string>) {
    value.None? || value.value == "" ||
    (StartsWith(value.value, "%") && EndsWith(value.value, "%")) || StartsWith(value.value, "$")
  }

  /** A character the pattern `[\d.-]` matches. */
  predicate IsNumericChar(c: char) {
    ('0' <= c <= '9') || c == '.' || c == '-'
  }

  /** `num.replace(/[^\d.-]/g, '')`: the digits, dots and minus signs, in order. */
  function NumericChars(s: string): (r: string)
    ensures |r| <= |s|
    ensures forall k :: 0 <= k < |r| ==> IsNumericChar(r[k])
    ensures (forall k :: 0 <= k < |s| ==> IsNumericChar(s[k])) ==> r == s
    ensures (forall k :: 0 <= k < |s| ==> !IsNumericChar(s[k])) ==> r == ""
    decreases |s|
  {
    if |s| == 0 then ""
    else (if IsNumericChar(s[0]) then [s[0]] else []) + NumericChars(s[1..])
  }

  /**
   * Stripping works character by character: the kept characters of a concatenation are
   * those of each part, in turn. With the two ensures above (a single character is kept
   * exactly when it matches), this says the result is `s` filtered to `[\d.-]`.
   */
  lemma {:induction false} NumericCharsAppend(a: string, b: string)
    ensures NumericChars(a + b) == NumericChars(a) + NumericChars(b)
    decreases |a|
  {
    if |a| > 0 {
      assert (a + b)[1..] == a[1..] + b;
      NumericCharsAppend(a[1..], b);
    } else {
      assert a + b == b;
    }
  }

  /**
   * Whether `Number(d)` is not NaN for such a string: an optional leading '-', then
   * digits with at most one '.', at least one of them a digit.
   */
  predicate IsNumberText(d: string) {
    var u := if |d| > 0 && d[0] == '-' then d[1..] else d;
    '-' !in u && multiset(u)['.'] <= 1 && exists k :: 0 <= k < |u| && '0' <= u[k] <= '9'
  }

  /**
   * One part of `formatNumber` (text without '/'): the number in it formatted by the
   * locale (`format`, standing for `Intl.NumberFormat`), or the text itself when it
   * holds no number.
   */
  function FormatPart(s: string, format: string -> string): (r: string)
    ensures NumericChars(s) == "" ==> r == s
    ensures !IsNumberText(NumericChars(s)) ==> r == s
    ensures NumericChars(s) != "" && IsNumberText(NumericChars(s)) ==> r == format(NumericChars(s))
  {
    var d := NumericChars(s);
    if d == "" || !IsNumberText(d) then s else format(d)
  }

  /**
   * `formatNumber`: '0' for a missing value; a text with '/' has each trimmed part
   * formatted and the parts joined with '/' again (a part holds no '/', so formatting it
   * takes the other branch).
   */
  function FormatNumber(num: Option<string>, format: string -> string): (r: string)
    ensures num.None? ==> r == "0"
    ensures num.Some? && '/' !in num.value ==> r == FormatPart(num.value, format)
  {
    if num.None? then "0"
    else if '/' in num.value then
      var parts := Fields(num.value, '/');
      Join(seq(|parts|, k requires 0 <= k < |parts| => FormatPart(JsTrim(parts[k]), format)), '/')
    else FormatPart(num.value, format)
  }

  /** Trimming keeps only characters of the text. */
  lemma {:induction false} JsTrimKeeps(s: string, c: char)
    requires c !in s
    ensures c !in JsTrim(s)
    decreases |s|
  {
    if |s| > 0 && IsJsSpace(s[0]) {
      JsTrimKeeps(s[1..], c);
    } else if |s| > 0 && IsJsSpace(s[|s| - 1]) {
      JsTrimKeeps(s[..|s| - 1], c);
    }
  }

  /**
   * The parts of a ratio are formatted independently: when the locale format writes no
   * '/', the result has as many parts as the input, each the format of the trimmed part.
   */
  lemma RatioPartsIndependent(num: string, format: string -> string)
    requires '/' in num
    requires forall d :: '/' !in format(d)
    ensures var parts := Fields(num, '/');
      var out := Fields(FormatNumber(Some(num), format), '/');
      |out| == |parts| && forall k :: 0 <= k < |parts| ==> out[k] == FormatPart(JsTrim(parts[k]), format)
  {
    var parts := Fields(num, '/');
    FieldsJoin(num, '/');
    var formatted := seq(|parts|, k requires 0 <= k < |parts| => FormatPart(JsTrim(parts[k]), format));
    forall k | 0 <= k < |parts|
      ensures '/' !in formatted[k]
    {
      JsTrimKeeps(parts[k], '/');
    }
    FieldsOfJoin(formatted, '/');
  }

  /** What the value element shows: "0" for an unresolved value, the formatted value otherwise. */
  function DisplayValue(value: Option<string>, format: string -> string): (r: string)
    ensures IsUnresolved(value) ==> r == "0"
    ensures !IsUnresolved(value) ==> r == FormatNumber(value, format)
  {
    if IsUnresolved(value) then "0" else FormatNumber(value, format)
  }

  /** The raw placeholder syntax never reaches the page. */
  lemma RawPlaceholderShowsZero(expr: string, format: string -> string)
    ensures DisplayValue(Some("%" + expr + "%"), format) == "0"
  {
    var v := "%" + expr + "%";
    assert StartsWith(v, "%") && v[|v| - 1..] == "%";
  }

  // ---- Ordering ----

  /** `a.priority || 999`: a missing or zero priority sorts as 999. */
  function SortKey(data: Entry): int {
    if data.priority.None? || data.priority.value == 0 then 999 else data.priority.value
  }

  predicate SortedByKey(s: seq<Entry>) {
    forall i, j :: 0 <= i < j < |s| ==> SortKey(s[i]) <= SortKey(s[j])
  }

  /** Inserting before the first entry with a larger or equal key, so equal keys keep their order. */
  function Insert(data: Entry, sorted: seq<Entry>): seq<Entry>
    decreases |sorted|
  {
    if |sorted| == 0 || SortKey(data) <= SortKey(sorted[0]) then [data] + sorted
    else [sorted[0]] + Insert(data, sorted[1..])
  }

  /** Inserting adds the entry and loses nothing. */
  lemma {:induction false} InsertPermutes(data: Entry, sorted: seq<Entry>)
    ensures multiset(Insert(data, sorted)) == multiset(sorted) + multiset{data}
    decreases |sorted|
  {
    if |sorted| > 0 && SortKey(data) > SortKey(sorted[0]) {
      InsertPermutes(data, sorted[1..]);
      assert sorted == [sorted[0]] + sorted[1..];
    }
  }

  /** Inserting into a sorted sequence keeps it sorted. */
  lemma {:induction false} InsertSorted(data: Entry, sorted: seq<Entry>)
    requires SortedByKey(sorted)
    ensures SortedByKey(Insert(data, sorted))
    decreases |sorted|
  {
    if |sorted| > 0 && SortKey(data) > SortKey(sorted[0]) {
      var rest := Insert(data, sorted[1..]);
      InsertSorted(data, sorted[1..]);
      InsertPermutes(data, sorted[1..]);
      forall k | 0 <= k < |rest|
        ensures SortKey(sorted[0]) <= SortKey(rest[k])
      {
        assert rest[k] in multiset(rest);
        if rest[k] != data {
          assert rest[k] in multiset(sorted[1..]);
        }
      }
    }
  }

  /** The sort of `updatePlaceholders`, as an insertion sort. */
  function SortByPriority(items: seq<Entry>): seq<Entry>
    decreases |items|
  {
    if |items| == 0 then [] else Insert(items[0], SortByPriority(items[1..]))
  }

  /** The sort orders by ascending key and is a permutation of its input. */
  lemma {:induction false} SortByPriorityCorrect(items: seq<Entry>)
    ensures SortedByKey(SortByPriority(items))
    ensures multiset(SortByPriority(items)) == multiset(items)
    decreases |items|
  {
    if |items| > 0 {
      var rest := SortByPriority(items[1..]);
      SortByPriorityCorrect(items[1..]);
      InsertPermutes(items[0], rest);
      InsertSorted(items[0], rest);
      assert items == [items[0]] + items[1..];
    }
  }

  // ---- The panel ----

  /** An element of the panel: the placeholder id, its name, its icon and its value text. */
  datatype Element = Element(id: string, name: string, icon: string, value: string)

  /** `data.name || data.id`. */
  function ShownName(data: Entry): string {
    if data.name.Some? && data.name.value != "" then data.name.value else data.id
  }

  /** `img/items/${data.icon || 'barrier'}.png`. */
  function IconPath(icon: Option<string>): string {
    "img/items/" + (if icon.Some? && icon.value != "" then icon.value else "barrier") + ".png"
  }

  /** The element `addCustomPlaceholder` builds for an entry. */
  function ElementOf(data: Entry, format: string -> string): Element {
    Element(data.id, ShownName(data), IconPath(data.icon), DisplayValue(data.value, format))
  }

  /** Only an entry whose `enabled` is true passes both `enabled === false` and `!data.enabled`. */
  predicate Shown(data: Entry) {
    data.enabled == Some(true)
  }

  /** The entries that are shown, in order. */
  function Visible(items: seq<Entry>): (r: seq<Entry>)
    ensures forall k :: 0 <= k < |r| ==> Shown(r[k])
    decreases |items|
  {
    if |items| == 0 then []
    else Visible(items[..|items| - 1]) + (if Shown(items[|items| - 1]) then [items[|items| - 1]] else [])
  }

  /** Filtering keeps exactly the shown copies of every entry. */
  lemma {:induction false} VisibleCount(items: seq<Entry>, data: Entry)
    ensures multiset(Visible(items))[data] == if Shown(data) then multiset(items)[data] else 0
    decreases |items|
  {
    if |items| > 0 {
      var init := items[..|items| - 1];
      VisibleCount(init, data);
      assert items == init + [items[|items| - 1]];
    }
  }

  /** Filtering keeps the order of what it keeps. */
  lemma {:induction false} VisibleSorted(items: seq<Entry>)
    requires SortedByKey(items)
    ensures SortedByKey(Visible(items))
    decreases |items|
  {
    if |items| > 0 {
      var init := items[..|items| - 1];
      VisibleSorted(init);
      var v := Visible(init);
      forall k | 0 <= k < |v|
        ensures SortKey(v[k]) <= SortKey(items[|items| - 1])
      {
        VisibleCount(init, v[k]);
        assert v[k] in multiset(v);
        assert v[k] in multiset(init);
        var j :| 0 <= j < |init| && init[j] == v[k];
      }
    }
  }

  /**
   * The panel shows every enabled placeholder exactly as often as it was sent, and no
   * other, in ascending priority.
   */
  lemma PanelOrder(items: seq<Entry>)
    ensures SortedByKey(Visible(SortByPriority(items)))
    ensures multiset(Visible(SortByPriority(items))) == multiset(Visible(items))
  {
    SortByPriorityCorrect(items);
    VisibleSorted(SortByPriority(items));
    forall data
      ensures multiset(Visible(SortByPriority(items)))[data] == multiset(Visible(items))[data]
    {
      VisibleCount(SortByPriority(items), data);
      VisibleCount(items, data);
    }
  }

  /**
   * The name an entry is shown under: by `getEffectiveName` as written (what the panel
   * does), or by the version with the corrected garbling test.
   */
  function PanelName(corrected: bool, data: Entry, nameMapping: Option<map<string, string>>,
                     staticNames: map<string, string>): string {
    if corrected then EffectiveName(data, nameMapping, staticNames)
    else EffectiveNameAsWritten(data, nameMapping, staticNames)
  }

  /** The elements for the sorted entries: each shown entry under its shown name. */
  function Rendered(sorted: seq<Entry>, corrected: bool, nameMapping: Option<map<string, string>>,
                    staticNames: map<string, string>, format: string -> string): seq<Element>
    decreases |sorted|
  {
    if |sorted| == 0 then []
    else
      var data := sorted[|sorted| - 1];
      Rendered(sorted[..|sorted| - 1], corrected, nameMapping, staticNames, format) +
      (if Shown(data) then [ElementOf(data.(name := Some(PanelName(corrected, data, nameMapping, staticNames))), format)] else [])
  }

  /** Element `k` of the panel is the `k`-th shown entry under its shown name. */
  lemma {:induction false} RenderedElements(sorted: seq<Entry>, corrected: bool, nameMapping: Option<map<string, string>>,
                                            staticNames: map<string, string>, format: string -> string)
    ensures var r := Rendered(sorted, corrected, nameMapping, staticNames, format);
      var v := Visible(sorted);
      |r| == |v| && forall k :: 0 <= k < |r| ==> r[k] == ElementOf(v[k].(name := Some(PanelName(corrected, v[k], nameMapping, staticNames))), format)
    decreases |sorted|
  {
    if |sorted| > 0 {
      RenderedElements(sorted[..|sorted| - 1], corrected, nameMapping, staticNames, format);
    }
  }

  /**
   * The panel as written shows every placeholder under a mapped name or its id, never its
   * own name; under the corrected test a readable own name other than the id is shown.
   */
  lemma PanelNames(sorted: seq<Entry>, nameMapping: Option<map<string, string>>,
                   staticNames: map<string, string>, format: string -> string)
    ensures var r := Rendered(sorted, false, nameMapping, staticNames, format);
      var v := Visible(sorted);
      |r| == |v| && forall k :: 0 <= k < |r| ==> r[k] == ElementOf(v[k].(name := Some(MappedName(v[k].id, nameMapping, staticNames))), format)
    ensures var r := Rendered(sorted, true, nameMapping, staticNames, format);
      var v := Visible(sorted);
      |r| == |v| && forall k :: 0 <= k < |r| && !IsGarbled(v[k].name) && v[k].name != Some(v[k].id) ==>
        r[k] == ElementOf(v[k], format)
  {
    RenderedElements(sorted, false, nameMapping, staticNames, format);
    RenderedElements(sorted, true, nameMapping, staticNames, format);
    var v := Visible(sorted);
    forall k | 0 <= k < |v|
      ensures PanelName(false, v[k], nameMapping, staticNames) == MappedName(v[k].id, nameMapping, staticNames)
    {
      AsWrittenIgnoresOwnName(v[k], nameMapping, staticNames);
    }
    forall k | 0 <= k < |v| && !IsGarbled(v[k].name) && v[k].name != Some(v[k].id)
      ensures v[k].(name := Some(PanelName(true, v[k], nameMapping, staticNames))) == v[k]
    {
    }
  }

  /** `PlaceholderManager`: the static name mapping and the elements on the panel. */
  class PlaceholderManager {
    var staticNameMapping: map<string, string>
    var elements: seq<Element>
    /** Whether the page has the container the panel lives in. */
    var hasContainer: bool

    constructor (hasContainer: bool)
      ensures staticNameMapping == map[] && elements == [] && this.hasContainer == hasContainer
    {
      staticNameMapping := map[];
      elements := [];
      this.hasContainer := hasContainer;
    }

    /** The mapping file was loaded (its content), or failed to load (an empty mapping). */
    method SetStaticNameMapping(loaded: Option<map<string, string>>)
      modifies this
      ensures staticNameMapping == (if loaded.Some? then loaded.value else map[])
      ensures elements == old(elements) && hasContainer == old(hasContainer)
    {
      staticNameMapping := if loaded.Some? then loaded.value else map[];
    }

    /** `clearCustomPlaceholders`. */
    method ClearCustomPlaceholders()
      modifies this
      ensures elements == (if hasContainer then [] else old(elements))
      ensures staticNameMapping == old(staticNameMapping) && hasContainer == old(hasContainer)
    {
      if hasContainer {
        elements := [];
      }
    }

    /** `addCustomPlaceholder`: nothing for an entry that is not enabled. */
    method AddCustomPlaceholder(data: Entry, format: string -> string)
      modifies this
      ensures elements == old(elements) + (if data.enabled == Some(true) then [ElementOf(data, format)] else [])
      ensures staticNameMapping == old(staticNameMapping) && hasContainer == old(hasContainer)
    {
      if data.enabled != Some(true) {
        return;
      }
      elements := elements + [ElementOf(data, format)];
    }

    /**
     * `updatePlaceholders`: nothing without an array or a container; otherwise the panel
     * is cleared and refilled from the entries sorted by priority, skipping disabled ones.
     */
    method UpdatePlaceholders(items: Option<seq<Entry>>, nameMapping: Option<map<string, string>>, format: string -> string)
      modifies this
      ensures items.None? || !hasContainer ==> elements == old(elements)
      ensures items.Some? && hasContainer ==> elements == Rendered(SortByPriority(items.value), false, nameMapping, staticNameMapping, format)
      ensures staticNameMapping == old(staticNameMapping) && hasContainer == old(hasContainer)
    {
      if items.None? || !hasContainer {
        return;
      }
      ClearCustomPlaceholders();
      var sorted := SortByPriority(items.value);
      var i := 0;
      while i < |sorted|
        invariant 0 <= i <= |sorted|
        invariant elements == Rendered(sorted[..i], false, nameMapping, staticNameMapping, format)
        invariant staticNameMapping == old(staticNameMapping) && hasContainer == old(hasContainer)
      {
        var data := sorted[i];
        assert sorted[..i + 1][..i] == sorted[..i];
        if data.enabled != Some(false) {
          var effectiveName := EffectiveNameAsWritten(data, nameMapping, staticNameMapping);
          AddCustomPlaceholder(data.(name := Some(effectiveName)), format);
        }
        i := i + 1;
      }
      assert sorted[..i] == sorted;
    }
  }
}
