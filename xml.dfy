/**
 * The parsed XML document the sitemap readers work on, and the three ElementTree
 * lookups they use: `find(tag)` (first direct child), `findall(tag)` (all direct
 * children) and `findall('.//' + tag)` (all proper descendants, in document order).
 * Tags are in ElementTree's Clark notation: "{uri}local" for a namespaced name,
 * "local" otherwise.
 */
module Xml {

  datatype Option<+T> = None | Some(value: T)

  /** An element as the parser delivers it; `text` is None when the element has no
      character data before its first child. */
  datatype Element = Element(tag: string, text: Option<string>, children: seq<Element>)

  /** The outcome of `ET.fromstring` on a response body. */
  datatype Body = Malformed | Parsed(root: Element)

  /** What `requests.get` hands back, as far as the readers look at it. */
  datatype Response = Response(status: int, body: Body)

  const HttpOk: int := 200

  /** The sitemaps.org protocol 0.9 namespace, as the prefix of a Clark-notation tag. */
  const SitemapNamespace: string := "{http://www.sitemaps.org/schemas/sitemap/0.9}"

  /** Index of the first element of `cs` tagged `tag`, or |cs| when there is none. */
  function FirstWithTag(cs: seq<Element>, tag: string): (i: nat)
    ensures i <= |cs|
    ensures forall j :: 0 <= j < i ==> cs[j].tag != tag
    ensures i < |cs| ==> cs[i].tag == tag
  {
    if cs == [] then 0
    else if cs[0].tag == tag then 0
    else 1 + FirstWithTag(cs[1..], tag)
  }

  /** ElementTree's `e.find(tag)` for a plain tag: the first direct child carrying it. */
  function Find(e: Element, tag: string): (r: Option<Element>)
    ensures r.Some? ==> r.value in e.children && r.value.tag == tag
  {
    var i := FirstWithTag(e.children, tag);
    if i < |e.children| then Some(e.children[i]) else None
  }

  /** `find` fails exactly when no child carries the tag, and otherwise returns the
      earliest child that does. */
  lemma FindSpec(e: Element, tag: string)
    ensures Find(e, tag).None? <==> forall c :: c in e.children ==> c.tag != tag
    ensures Find(e, tag).Some? ==>
              exists i :: 0 <= i < |e.children| && e.children[i] == Find(e, tag).value
                          && forall j :: 0 <= j < i ==> e.children[j].tag != tag
  {
    var i := FirstWithTag(e.children, tag);
    if i == |e.children| {
      forall c | c in e.children ensures c.tag != tag {
        var j :| 0 <= j < |e.children| && e.children[j] == c;
      }
    }
  }

  /** The elements of `es` tagged `tag`, in order. */
  function WithTag(es: seq<Element>, tag: string): (r: seq<Element>)
    ensures |r| <= |es|
    ensures forall x :: x in r <==> x in es && x.tag == tag
  {
    if es == [] then []
    else (if es[0].tag == tag then [es[0]] else []) + WithTag(es[1..], tag)
  }

  /** `e.findall(tag)`: the direct children carrying `tag`, in document order. */
  function FindAll(e: Element, tag: string): seq<Element>
  {
    WithTag(e.children, tag)
  }

  /** `e.iter()`: the element itself followed by all its descendants, in document order. */
  function Iter(e: Element): seq<Element>
    decreases e, 1
  {
    [e] + IterAll(e.children)
  }

  /** The pre-order walk of a sequence of sibling subtrees. */
  function IterAll(es: seq<Element>): seq<Element>
    decreases es, 0
  {
    if es == [] then [] else Iter(es[0]) + IterAll(es[1..])
  }

  /** `e.findall('.//' + tag)`: every proper descendant of `e` carrying `tag`, in document order. */
  function FindAllDescendants(e: Element, tag: string): seq<Element>
  {
    WithTag(IterAll(e.children), tag)
  }

  lemma {:induction false} WithTagAppend(a: seq<Element>, b: seq<Element>, tag: string)
    ensures WithTag(a + b, tag) == WithTag(a, tag) + WithTag(b, tag)
  {
    if a == [] {
      assert a + b == b;
    } else {
      assert (a + b)[0] == a[0] && (a + b)[1..] == a[1..] + b;
      WithTagAppend(a[1..], b, tag);
    }
  }

  /** For the flat sitemap shape (no `tag` element nested below a child of the root),
      the descendant search of one draft and the direct-child search of the others
      return the same elements in the same order. */
  lemma {:induction false} FlatDescendantsAreChildren(e: Element, tag: string)
    requires forall c :: c in e.children ==> WithTag(IterAll(c.children), tag) == []
    ensures FindAllDescendants(e, tag) == FindAll(e, tag)
  {
    FlatForest(e.children, tag);
  }

  lemma {:induction false} FlatForest(cs: seq<Element>, tag: string)
    requires forall c :: c in cs ==> WithTag(IterAll(c.children), tag) == []
    ensures WithTag(IterAll(cs), tag) == WithTag(cs, tag)
  {
    if cs != [] {
      var c := cs[0];
      WithTagAppend(Iter(c), IterAll(cs[1..]), tag);
      WithTagAppend([c], IterAll(c.children), tag);
      assert WithTag(Iter(c), tag) == WithTag([c], tag);
      FlatForest(cs[1..], tag);
      assert WithTag([c], tag) == (if c.tag == tag then [c] else []);
    }
  }

  /** Every direct child found by `findall(tag)` is also found by the descendant search. */
  lemma {:induction false} ChildrenAmongDescendants(e: Element, tag: string)
    ensures forall x :: x in FindAll(e, tag) ==> x in FindAllDescendants(e, tag)
  {
    ChildrenInWalk(e.children);
  }

  lemma {:induction false} ChildrenInWalk(cs: seq<Element>)
    ensures forall c :: c in cs ==> c in IterAll(cs)
  {
    if cs != [] {
      ChildrenInWalk(cs[1..]);
    }
  }

  /** The walk is closed under taking children: a child of a visited element is visited. */
  lemma {:induction false} WalkClosed(e: Element)
    ensures forall x, c :: x in Iter(e) && c in x.children ==> c in Iter(e)
    decreases e, 1
  {
    WalkAllClosed(e.children);
    ChildrenInWalk(e.children);
  }

  lemma {:induction false} WalkAllClosed(cs: seq<Element>)
    ensures forall x, c :: x in IterAll(cs) && c in x.children ==> c in IterAll(cs)
    decreases cs, 0
  {
    if cs != [] {
      WalkClosed(cs[0]);
      WalkAllClosed(cs[1..]);
    }
  }

  /** The local part of a Clark-notation tag: what follows its first `}`, or the whole
      tag when it has no namespace. */
  function LocalName(tag: string): (r: string)
    ensures '}' !in tag ==> r == tag
    ensures '}' in tag ==>
              |r| < |tag| && r == tag[|tag| - |r|..] && tag[|tag| - |r| - 1] == '}' &&
              '}' !in tag[..|tag| - |r| - 1]
    decreases |tag|
  {
    if '}' !in tag then tag
    else if tag[0] == '}' then tag[1..]
    else
      var rest := tag[1..];
      assert '}' in rest by {
        var i :| 0 <= i < |tag| && tag[i] == '}';
        assert rest[i - 1] == '}';
      }
      var r := LocalName(rest);
      assert tag[..|tag| - |r| - 1] == [tag[0]] + rest[..|rest| - |r| - 1];
      r
  }

  /** The local part of `{uri}local` is `local`, whatever the URI holds besides `}`. */
  lemma {:induction false} LocalNameOfClark(prefix: string, local: string)
    requires '}' !in prefix && '}' !in local
    ensures LocalName(prefix + "}" + local) == local
  {
    var tag := prefix + "}" + local;
    assert tag[|prefix|] == '}';
    assert tag[|tag| - |local|..] == local;
  }

  /** A document as the XML parser can produce it: no local name contains a space (XML
      names have no whitespace). A namespace URI may hold one: `xmlns="a b"` parses. */
  ghost predicate WellFormed(root: Element)
  {
    forall x :: x in Iter(root) ==> ' ' !in LocalName(x.tag)
  }

  /** In a parsed document a tag whose local part has a space is never found under any
      element. */
  lemma SpacedTagNeverFound(root: Element, x: Element, tag: string)
    requires WellFormed(root) && x in Iter(root)
    requires ' ' in LocalName(tag)
    ensures Find(x, tag).None?
  {
    WalkClosed(root);
    FindSpec(x, tag);
  }
}
