/**
  The small part of the browser's element interface that the vocabulary
  toggle uses: an element carries a map of attributes and a text content.
  An attribute name missing from the map is an attribute that
  `getAttribute` reports as `null`.
 */
module Dom {

  datatype Option<+T> = None | Some(value: T)

  /** How a DOM call ends: normally, or by throwing an `InvalidCharacterError` DOMException. */
  datatype Status = Done | InvalidCharacterError

  /** The characters a valid attribute name may not contain: ASCII whitespace, NULL, `/`, `=` and `>`. */
  predicate ForbiddenInName(c: char)
  {
    c == ' ' || c == '\t' || c == '\n' || c == '\r' || c == '\U{000C}' || c == '\0' || c == '/' || c == '=' || c == '>'
  }

  /** A valid attribute local name: non-empty, with no forbidden character. */
  predicate ValidAttrName(name: string)
  {
    |name| >= 1 && forall i :: 0 <= i < |name| ==> !ForbiddenInName(name[i])
  }

  /** What `getAttribute(name)` yields for an element whose attributes are `attrs`. */
  function Get(attrs: map<string, string>, name: string): (r: Option<string>)
    ensures r.Some? <==> name in attrs
    ensures r.Some? ==> r.value == attrs[name]
  {
    if name in attrs then Some(attrs[name]) else None
  }

  class Element {
    var attrs: map<string, string>
    var text: string

    constructor (attrs: map<string, string>, text: string)
      ensures this.attrs == attrs && this.text == text
    {
      this.attrs := attrs;
      this.text := text;
    }

    /** `getAttribute`: the attribute's value, or None where the element has no such attribute. */
    method GetAttribute(name: string) returns (r: Option<string>)
      ensures r == Get(attrs, name)
    {
      r := if name in attrs then Some(attrs[name]) else None;
    }

    /**
      `setAttribute`: with a valid name it adds the attribute or replaces its
      value and every other attribute stays; with an invalid name it throws
      `InvalidCharacterError` and changes nothing.
     */
    method SetAttribute(name: string, value: string) returns (status: Status)
      modifies this`attrs
      ensures status == Done <==> ValidAttrName(name)
      ensures status == Done ==> attrs == old(attrs)[name := value]
      ensures status == InvalidCharacterError ==> attrs == old(attrs)
    {
      if !ValidAttrName(name) {
        return InvalidCharacterError;
      }
      attrs := attrs[name := value];
      status := Done;
    }
  }
}
