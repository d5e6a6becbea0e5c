/** The part of a page element the front-end rules read and change: its class
    list, its `data-*` attributes and whether it shows an assigned nurse. */
module Dom {
  import opened Wrappers

  class Element {
    /** `classList`. */
    var classes: set<string>
    /** The attributes, by name (`data-date`, `data-room`, `data-id`, ...). */
    var attrs: map<string, string>
    /** Whether a `.event` child (a placed nurse) is present. */
    var hasEvent: bool
    /** `data-day` of a schedule cell, as `parseInt` reads it. */
    var day: int
    /** `textContent`. */
    var text: string

    constructor (classes: set<string>, attrs: map<string, string>, hasEvent: bool, day: int, text: string)
      ensures this.classes == classes && this.attrs == attrs && this.hasEvent == hasEvent
      ensures this.day == day && this.text == text
    {
      this.classes := classes;
      this.attrs := attrs;
      this.hasEvent := hasEvent;
      this.day := day;
      this.text := text;
    }

    /** `getAttribute(name)`, `null` when absent. */
    function Attr(name: string): Option<string>
      reads this
    {
      Lookup(attrs, name)
    }
  }

  /** `getAttribute(name)` on an attribute map. */
  function Lookup(attrs: map<string, string>, name: string): (v: Option<string>)
    ensures v.Some? <==> name in attrs
    ensures v.Some? ==> v.value == attrs[name]
  {
    if name in attrs then Some(attrs[name]) else None
  }

  /** The `getAttribute` text is truthy: present and not empty. */
  predicate Given(v: Option<string>) {
    v.Some? && v.value != ""
  }
}
