/**
 * `PlaceholderData`: a custom placeholder shown on the player page (its id, whether it
 * is enabled, its icon, the PlaceholderAPI expression, its display name, its priority
 * and its last resolved value). Placeholders sort by priority and are identified by id.
 */
module Placeholders {
  import opened Wrappers
  import opened DataIO

  /** `String.hashCode`: `h = 31 * h + c` over the characters, in `int`. */
  function StringHash(s: string): (h: int)
    ensures IsInt32(h)
    decreases |s|
  {
    if |s| == 0 then 0 else Wrap32(31 * StringHash(s[..|s| - 1]) + s[|s| - 1] as int)
  }

  /** `Objects.hash(id)`: `31 * 1` plus the id's hash, 0 for null. */
  function IdHash(id: Option<string>): (h: int)
    ensures IsInt32(h)
    ensures id.None? ==> h == 31
    ensures id.Some? ==> (h - 31 - StringHash(id.value)) % TwoTo32 == 0
  {
    Wrap32(31 + (if id.None? then 0 else StringHash(id.value)))
  }

  /** A property of the JSON object `toJsonObject` builds; a null string is a JSON null. */
  datatype Property = Text(s: Option<string>) | Flag(b: bool) | Number(n: int)

  /** The default value a placeholder shows before it is resolved. */
  const DefaultValue: string := "0"

  class PlaceholderData {
    var id: Option<string>
    var enabled: bool
    var icon: Option<string>
    var placeholder: Option<string>
    var name: Option<string>
    var priority: int
    var value: Option<string>

    /** The no-argument constructor: every field at its Java default. */
    constructor Blank()
      ensures id.None? && !enabled && icon.None? && placeholder.None? && name.None? && priority == 0 && value.None?
    {
      id := None;
      enabled := false;
      icon := None;
      placeholder := None;
      name := None;
      priority := 0;
      value := None;
    }

    /** The full constructor: the given fields, and the value "0". */
    constructor (id: Option<string>, enabled: bool, icon: Option<string>, placeholder: Option<string>, name: Option<string>, priority: int)
      requires IsInt32(priority)
      ensures this.id == id && this.enabled == enabled && this.icon == icon && this.placeholder == placeholder
      ensures this.name == name && this.priority == priority && this.value == Some(DefaultValue)
    {
      this.id := id;
      this.enabled := enabled;
      this.icon := icon;
      this.placeholder := placeholder;
      this.name := name;
      this.priority := priority;
      this.value := Some(DefaultValue);
    }

    /** `toJsonObject`: six properties; the display name is not among them. */
    function ToJsonObject(): (m: map<string, Property>)
      reads this
      ensures m.Keys == {"id", "enabled", "icon", "placeholder", "priority", "value"}
      ensures "name" !in m
      ensures m["id"] == Text(id) && m["enabled"] == Flag(enabled) && m["icon"] == Text(icon)
      ensures m["placeholder"] == Text(placeholder) && m["priority"] == Number(priority) && m["value"] == Text(value)
    {
      map["id" := Text(id), "enabled" := Flag(enabled), "icon" := Text(icon), "placeholder" := Text(placeholder),
          "priority" := Number(priority), "value" := Text(value)]
    }

    /** `compareTo`: `Integer.compare` of the priorities. */
    function CompareTo(other: PlaceholderData): (r: int)
      reads this, other
      ensures r in {-1, 0, 1}
      ensures r < 0 <==> priority < other.priority
      ensures r == 0 <==> priority == other.priority
    {
      if priority < other.priority then -1 else if priority == other.priority then 0 else 1
    }

    /** `equals`: the same object, or another placeholder with an equal id (null equals null). */
    predicate Equals(other: PlaceholderData?)
      reads this, other
    {
      this == other || (other != null && id == other.id)
    }

    /** `hashCode`: the hash of the id alone. */
    function HashCode(): (h: int)
      reads this
      ensures IsInt32(h)
    {
      IdHash(id)
    }

    method SetId(id: Option<string>)
      modifies this
      ensures this.id == id
      ensures enabled == old(enabled) && icon == old(icon) && placeholder == old(placeholder)
      ensures name == old(name) && priority == old(priority) && value == old(value)
    {
      this.id := id;
    }

    method SetEnabled(enabled: bool)
      modifies this
      ensures this.enabled == enabled
      ensures id == old(id) && icon == old(icon) && placeholder == old(placeholder)
      ensures name == old(name) && priority == old(priority) && value == old(value)
    {
      this.enabled := enabled;
    }

    method SetIcon(icon: Option<string>)
      modifies this
      ensures this.icon == icon
      ensures id == old(id) && enabled == old(enabled) && placeholder == old(placeholder)
      ensures name == old(name) && priority == old(priority) && value == old(value)
    {
      this.icon := icon;
    }

    method SetPlaceholder(placeholder: Option<string>)
      modifies this
      ensures this.placeholder == placeholder
      ensures id == old(id) && enabled == old(enabled) && icon == old(icon)
      ensures name == old(name) && priority == old(priority) && value == old(value)
    {
      this.placeholder := placeholder;
    }

    method SetName(name: Option<string>)
      modifies this
      ensures this.name == name
      ensures id == old(id) && enabled == old(enabled) && icon == old(icon)
      ensures placeholder == old(placeholder) && priority == old(priority) && value == old(value)
    {
      this.name := name;
    }

    method SetPriority(priority: int)
      requires IsInt32(priority)
      modifies this
      ensures this.priority == priority
      ensures id == old(id) && enabled == old(enabled) && icon == old(icon)
      ensures placeholder == old(placeholder) && name == old(name) && value == old(value)
    {
      this.priority := priority;
    }

    method SetValue(value: Option<string>)
      modifies this
      ensures this.value == value
      ensures id == old(id) && enabled == old(enabled) && icon == old(icon)
      ensures placeholder == old(placeholder) && name == old(name) && priority == old(priority)
    {
      this.value := value;
    }
  }

  /** `compareTo` is antisymmetric. */
  lemma CompareAntisymmetric(a: PlaceholderData, b: PlaceholderData)
    ensures a.CompareTo(b) == -b.CompareTo(a)
  {
  }

  /** `compareTo` is transitive, so it is a total preorder on priorities. */
  lemma CompareTransitive(a: PlaceholderData, b: PlaceholderData, c: PlaceholderData)
    requires a.CompareTo(b) <= 0 && b.CompareTo(c) <= 0
    ensures a.CompareTo(c) <= 0
  {
  }

  /** `equals` is an equivalence. */
  lemma EqualsIsEquivalence(a: PlaceholderData, b: PlaceholderData, c: PlaceholderData)
    ensures a.Equals(a)
    ensures a.Equals(b) ==> b.Equals(a)
    ensures a.Equals(b) && b.Equals(c) ==> a.Equals(c)
  {
  }

  /** Equal placeholders have equal hash codes. */
  lemma EqualsAgreesWithHash(a: PlaceholderData, b: PlaceholderData)
    requires a.Equals(b)
    ensures a.HashCode() == b.HashCode()
  {
  }

  /**
   * The ordering and equality look at different fields: two placeholders with different
   * ids compare as equal when their priorities are, and equal ones can compare unequal.
   */
  lemma OrderIgnoresIdentity(a: PlaceholderData, b: PlaceholderData)
    ensures a.CompareTo(b) == 0 <==> a.priority == b.priority
    ensures a.Equals(b) <==> a == b || a.id == b.id
  {
  }
}
