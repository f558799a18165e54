/** An already-read XML document, as the element tree `xml.etree.ElementTree`
    hands to the parsers, and the three queries they make of it. Reading the
    text into a tree is outside the model: it is the `XmlReader` parameter. */
module Xml {
  import opened Common

  datatype Element = Element(tag: string, attrs: map<string, string>, children: seq<Element>, text: Option<string>)

  /** `ET.fromstring`, with `None` standing for its `ParseError`. */
  type XmlReader = string -> Option<Element>

  /** `element.attrib.get(name)` */
  function Attr(e: Element, name: string): Option<string> {
    Get(e.attrs, name)
  }

  /** The elements of `es` tagged `tag`, in their order. */
  function Tagged(es: seq<Element>, tag: string): (r: seq<Element>)
    ensures |r| <= |es|
    ensures forall x :: x in r <==> x in es && x.tag == tag
  {
    if es == [] then []
    else (if es[0].tag == tag then [es[0]] else []) + Tagged(es[1..], tag)
  }

  /** A tagged element occurs among the tagged elements as often as in
      `es`, any other element not at all. */
  lemma {:induction false} TaggedCount(es: seq<Element>, tag: string)
    ensures forall x :: multiset(Tagged(es, tag))[x] == if x.tag == tag then multiset(es)[x] else 0
  {
    if es != [] {
      TaggedCount(es[1..], tag);
      Cons(es);
    }
  }

  /** Tagging a concatenation tags each part, so the tagged elements keep
      their order. */
  lemma {:induction false} TaggedAppend(a: seq<Element>, b: seq<Element>, tag: string)
    ensures Tagged(a + b, tag) == Tagged(a, tag) + Tagged(b, tag)
  {
    if a == [] {
      assert a + b == b;
    } else {
      assert (a + b)[0] == a[0] && (a + b)[1..] == a[1..] + b;
      TaggedAppend(a[1..], b, tag);
      Associative(if a[0].tag == tag then [a[0]] else [], Tagged(a[1..], tag), Tagged(b, tag));
    }
  }

  lemma TaggedOne(x: Element, tag: string)
    ensures Tagged([x], tag) == if x.tag == tag then [x] else []
  {
    assert [x][1..] == [];
  }

  /** A sequence is what comes before index `i`, its element there, and what
      comes after. */
  lemma Around<T>(s: seq<T>, i: int)
    requires 0 <= i < |s|
    ensures s == s[..i] + ([s[i]] + s[i + 1..])
  {
  }

  /** The element between `before` and `after` sits at index `|before|`. */
  lemma SplitAround<T>(before: seq<T>, x: T, after: seq<T>)
    ensures |before| < |before + ([x] + after)|
    ensures (before + ([x] + after))[|before|] == x
    ensures (before + ([x] + after))[|before| + 1..] == after
  {
    assert (before + ([x] + after))[|before| + 1..] == after;
  }

  /** A tagged element at index `i` of `es` sits in the tagged elements
      right after those tagged before it, and only the tagged elements after
      it follow it there. */
  lemma TaggedSplit(es: seq<Element>, tag: string, i: int)
    requires 0 <= i < |es| && es[i].tag == tag
    ensures var k := |Tagged(es[..i], tag)|;
      && k < |Tagged(es, tag)| && Tagged(es, tag)[k] == es[i]
      && Tagged(es, tag)[k + 1..] == Tagged(es[i + 1..], tag)
  {
    var pre, x, post := es[..i], es[i], es[i + 1..];
    var before, after := Tagged(pre, tag), Tagged(post, tag);
    assert Tagged(es, tag) == before + ([x] + after) by {
      Around(es, i);
      TaggedAppend(pre, [x] + post, tag);
      TaggedAppend([x], post, tag);
      TaggedOne(x, tag);
    }
    SplitAround(before, x, after);
  }

  /** The first tagged element is preceded by no tagged element. */
  lemma {:induction false} TaggedFirst(es: seq<Element>, tag: string)
    requires Tagged(es, tag) != []
    ensures exists k | 0 <= k < |es| :: es[k] == Tagged(es, tag)[0] && forall j | 0 <= j < k :: es[j].tag != tag
  {
    var x, tail := es[0], es[1..];
    Cons(es);
    if x.tag != tag {
      assert Tagged(es, tag) == Tagged(tail, tag) by {
        TaggedAppend([x], tail, tag);
        TaggedOne(x, tag);
      }
      TaggedFirst(tail, tag);
      var k :| 0 <= k < |tail| && tail[k] == Tagged(tail, tag)[0] && forall j | 0 <= j < k :: tail[j].tag != tag;
      ShiftedFirst(es, k, tag);
    }
  }

  lemma ShiftedFirst(es: seq<Element>, k: int, tag: string)
    requires 0 <= k < |es| - 1 && es[0].tag != tag
    requires forall j | 0 <= j < k :: es[1..][j].tag != tag
    ensures es[k + 1] == es[1..][k]
    ensures forall j | 0 <= j < k + 1 :: es[j].tag != tag
  {
    forall j | 0 <= j < k + 1 ensures es[j].tag != tag {
      if j > 0 { assert es[j] == es[1..][j - 1]; }
    }
  }

  /** `element.findall(tag)`: the direct children tagged `tag`, in document order. */
  function FindAll(e: Element, tag: string): seq<Element> {
    Tagged(e.children, tag)
  }

  /** `element.find(tag)`: the first direct child tagged `tag`, if any. */
  function Find(e: Element, tag: string): (r: Option<Element>)
    ensures r.None? <==> forall c :: c in e.children ==> c.tag != tag
    ensures r.Some? ==> r.value in e.children && r.value.tag == tag
    ensures r.Some? ==> r.value == FindAll(e, tag)[0]
  {
    var found := FindAll(e, tag);
    if found == [] then None else assert found[0] in found; Some(found[0])
  }

  /** The child `find` returns is preceded by no child with its tag. */
  lemma FindIsFirst(e: Element, tag: string)
    ensures Find(e, tag).Some? ==> exists k | 0 <= k < |e.children| ::
      e.children[k] == Find(e, tag).value && forall j | 0 <= j < k :: e.children[j].tag != tag
  {
    if FindAll(e, tag) != [] {
      TaggedFirst(e.children, tag);
    }
  }

  /** Every element of `r` is one of the roots `es` or a child of an
      element before it in `r`: nothing in `r` lies outside the forest. */
  ghost predicate Rooted(r: seq<Element>, es: seq<Element>) {
    forall i | 0 <= i < |r| :: r[i] in es || exists j | 0 <= j < i :: r[i] in r[j].children
  }

  /** A root, then its own descendants, then those of the roots after it:
      still rooted in the whole forest. */
  lemma RootedCons(es: seq<Element>, below: seq<Element>, rest: seq<Element>)
    requires es != [] && Rooted(below, es[0].children) && Rooted(rest, es[1..])
    ensures Rooted([es[0]] + below + rest, es)
  {
    var r := [es[0]] + below + rest;
    forall i | 0 <= i < |r| ensures r[i] in es || exists j | 0 <= j < i :: r[i] in r[j].children {
      if i == 0 {
      } else if i <= |below| {
        assert r[i] == below[i - 1];
        if below[i - 1] in es[0].children {
          assert r[i] in r[0].children;
        } else {
          var j :| 0 <= j < i - 1 && below[i - 1] in below[j].children;
          assert r[j + 1] == below[j];
        }
      } else {
        var k := i - 1 - |below|;
        assert r[i] == rest[k];
        if rest[k] in es[1..] {
          assert rest[k] in es;
        } else {
          var j :| 0 <= j < k && rest[k] in rest[j].children;
          assert r[j + 1 + |below|] == rest[j];
        }
      }
    }
  }

  /** The elements of the forest `es` and all elements below them, in document
      order (each element before its children, siblings left to right). */
  function Descendants(es: seq<Element>): (r: seq<Element>)
    ensures forall x :: x in es ==> x in r
    ensures forall x, y :: x in r && y in x.children ==> y in r
    ensures Rooted(r, es)
    decreases es
  {
    if es == [] then []
    else
      var below, rest := Descendants(es[0].children), Descendants(es[1..]);
      assert forall x :: x in es ==> x == es[0] || x in es[1..];
      RootedCons(es, below, rest);
      [es[0]] + below + rest
  }

  /** The descendants of one element: itself, then those below it. */
  lemma DescendantsOne(x: Element)
    ensures Descendants([x]) == [x] + Descendants(x.children)
  {
    assert [x][1..] == [];
  }

  /** The descendants of a forest are those of its trees one after the
      other: together with `DescendantsOne` this is pre-order. */
  lemma {:induction false} DescendantsAppend(a: seq<Element>, b: seq<Element>)
    ensures Descendants(a + b) == Descendants(a) + Descendants(b)
    decreases a
  {
    if a == [] {
      assert a + b == b;
    } else {
      assert (a + b)[0] == a[0] && (a + b)[1..] == a[1..] + b;
      DescendantsAppend(a[1..], b);
    }
  }

  /** The elements below `e` tagged `tag` come in document order: those below
      the children before child `i`, then child `i` if tagged, then those
      below it, then those below the children after it. */
  lemma FindAllBelowAround(e: Element, tag: string, i: int)
    requires 0 <= i < |e.children|
    ensures var kids := e.children;
      FindAllBelow(e, tag) ==
        Tagged(Descendants(kids[..i]), tag) + (Tagged([kids[i]], tag) +
        (Tagged(Descendants(kids[i].children), tag) + Tagged(Descendants(kids[i + 1..]), tag)))
  {
    var kids := e.children;
    var pre, x, post := kids[..i], kids[i], kids[i + 1..];
    var dPre, dX, dBelow, dPost := Descendants(pre), Descendants([x]), Descendants(x.children), Descendants(post);
    assert Descendants(kids) == dPre + (dX + dPost) by {
      Around(kids, i);
      DescendantsAppend(pre, [x] + post);
      DescendantsAppend([x], post);
    }
    assert dX == [x] + dBelow by {
      DescendantsOne(x);
    }
    var tX, tBelow, tPost := Tagged([x], tag), Tagged(dBelow, tag), Tagged(dPost, tag);
    assert Tagged(dPre + (dX + dPost), tag) == Tagged(dPre, tag) + Tagged(dX + dPost, tag) by {
      TaggedAppend(dPre, dX + dPost, tag);
    }
    assert Tagged(dX + dPost, tag) == (tX + tBelow) + tPost by {
      TaggedAppend(dX, dPost, tag);
      TaggedAppend([x], dBelow, tag);
    }
    Associative(tX, tBelow, tPost);
  }

  lemma Cons<T>(s: seq<T>)
    requires s != []
    ensures s == [s[0]] + s[1..]
  {
  }

  lemma Associative<T>(a: seq<T>, b: seq<T>, c: seq<T>)
    ensures (a + b) + c == a + (b + c)
  {
  }

  /** `element.findall(".//" + tag)`: every element below `e` tagged `tag`, in
      document order; `e` itself is not a candidate. */
  function FindAllBelow(e: Element, tag: string): (r: seq<Element>)
    ensures forall c :: c in e.children && c.tag == tag ==> c in r
    ensures forall x :: x in r <==> x in Descendants(e.children) && x.tag == tag
    ensures forall x :: multiset(r)[x] == if x.tag == tag then multiset(Descendants(e.children))[x] else 0
  {
    TaggedCount(Descendants(e.children), tag);
    Tagged(Descendants(e.children), tag)
  }
}
