/** The rendered page as the in-page scripts see it, abstracted to records:
    elements with their text, visibility and attributes; list items with their
    descendants; containers holding list items. Queries are the CSS selectors
    the scripts use: querySelector is the first element in document order that
    matches, querySelectorAll all of them in document order. */
module Dom {
  import opened Base
  import opened Strings

  /** An element: its tag name in lower case (as CSS matches HTML tags), its
      textContent, whether its offsetParent is non-null (rendered and visible),
      and its attributes. */
  datatype Element = Element(tag: string, text: string, visible: bool, attributes: map<string, string>)

  /** An `li` element: its innerText and its descendant elements in document order. */
  datatype ListItem = ListItem(innerText: string, descendants: seq<Element>)

  /** A container element and the `li` elements below it, in document order. */
  datatype Container = Container(element: Element, items: seq<ListItem>)

  /** The containers of a rendered page, in document order. */
  type View = seq<Container>

  /** Element.getAttribute: None stands for null. */
  function GetAttribute(e: Element, name: string): Option<string> {
    if name in e.attributes then Some(e.attributes[name]) else None
  }

  /** `el.getAttribute(name) || ""`. */
  function AttributeOrEmpty(e: Element, name: string): (r: string)
    ensures GetAttribute(e, name).Some? ==> r == GetAttribute(e, name).value
    ensures GetAttribute(e, name).None? ==> r == ""
  {
    if name in e.attributes then e.attributes[name] else ""
  }

  /** The CSS selector `[class*="token"]`: a class attribute containing token. */
  predicate HasClassPart(e: Element, token: string) {
    "class" in e.attributes && Contains(e.attributes["class"], token)
  }

  /** querySelector('[class*="token"]') over the given elements. */
  function QueryClass(elems: seq<Element>, token: string): (r: Option<Element>)
    ensures r.Some? <==> exists i :: 0 <= i < |elems| && HasClassPart(elems[i], token)
    ensures r.Some? ==> exists i ::
      && 0 <= i < |elems| && elems[i] == r.value && HasClassPart(elems[i], token)
      && forall j :: 0 <= j < i ==> !HasClassPart(elems[j], token)
  {
    match Find(elems, (e: Element) => HasClassPart(e, token))
    case None => None
    case Some(i) => Some(elems[i])
  }

  /** querySelector(tag) over the given elements. */
  function QueryTag(elems: seq<Element>, tag: string): (r: Option<Element>)
    ensures r.Some? <==> exists i :: 0 <= i < |elems| && elems[i].tag == tag
    ensures r.Some? ==> exists i ::
      && 0 <= i < |elems| && elems[i] == r.value && elems[i].tag == tag
      && forall j :: 0 <= j < i ==> elems[j].tag != tag
  {
    match Find(elems, (e: Element) => e.tag == tag)
    case None => None
    case Some(i) => Some(elems[i])
  }

  /** document.querySelector('article[class*="token"]'). */
  function QueryArticle(view: View, token: string): (r: Option<Container>)
    ensures r.Some? ==> exists i ::
      && 0 <= i < |view| && view[i] == r.value
      && view[i].element.tag == "article" && HasClassPart(view[i].element, token)
      && forall j :: 0 <= j < i ==> !(view[j].element.tag == "article" && HasClassPart(view[j].element, token))
    ensures r.None? ==> forall i :: 0 <= i < |view| ==>
      !(view[i].element.tag == "article" && HasClassPart(view[i].element, token))
  {
    match Find(view, (c: Container) => c.element.tag == "article" && HasClassPart(c.element, token))
    case None => None
    case Some(i) => Some(view[i])
  }

  /** querySelectorAll with a list of tag selectors ('li, div, span, a'): the
      document's elements whose tag is one of them, in document order. */
  function SelectAll(doc: seq<Element>, tags: set<string>): (r: seq<Element>)
    ensures forall i :: 0 <= i < |r| ==> r[i].tag in tags
    ensures forall e :: e in r <==> e in doc && e.tag in tags
  {
    var selected := (e: Element) => e.tag in tags;
    assert forall e :: e in Filter(doc, selected) <==> e in doc && e.tag in tags by {
      forall e
        ensures e in Filter(doc, selected) <==> e in doc && e.tag in tags
      {
        FilterMembership(doc, selected, e);
      }
    }
    Filter(doc, selected)
  }

  /** The origin that root-relative image paths are resolved against. */
  const Origin: string := "https://www.streetfighter.com"

  /** The icon of a list item from its first `img`: empty without one; a
      root-relative src is made absolute against Origin; any other src, the
      empty one included, is kept as it is. */
  function IconUrl(img: Option<Element>): string {
    match img
    case None => ""
    case Some(e) =>
      var src := AttributeOrEmpty(e, "src");
      if StartsWith(src, "/") then Origin + src else src
  }

  /** The icon is never root-relative: it keeps the image's src as its ending, and it
      differs from the src exactly when the src was root-relative, by the origin. */
  lemma IconUrlSpec(img: Option<Element>)
    ensures !StartsWith(IconUrl(img), "/")
    ensures img.None? ==> IconUrl(img) == ""
    ensures img.Some? ==> var src := AttributeOrEmpty(img.value, "src");
      && EndsWith(IconUrl(img), src)
      && (StartsWith(src, "/") <==> IconUrl(img) == Origin + src)
      && (!StartsWith(src, "/") <==> IconUrl(img) == src)
  {
    if img.Some? {
      var src := AttributeOrEmpty(img.value, "src");
      var r := IconUrl(img);
      if StartsWith(src, "/") {
        assert r == Origin + src;
        assert r[..1] == "h";
        assert r[|r| - |src|..] == src;
        assert r != src by {
          assert src[..1] == "/";
        }
      } else {
        assert r == src;
        assert r[|r| - |src|..] == src;
      }
    }
  }
}
