/** A parsed markup document, as `xml.etree.ElementTree` hands it over.
    Elements are identified by their index in the document, never by an
    attribute value: node 0 is the root, and every element lists the
    indices of its children in document order. */
module ElementTree {
  import opened Wrappers

  datatype Element = Element(
    tag: string,
    attrib: map<string, string>,
    text: Option<string>,
    children: seq<nat>)

  type Document = seq<Element>

  /** `element.get(key, default)` */
  function Get(e: Element, key: string, default: string): (r: string) {
    if key in e.attrib then e.attrib[key] else default
  }

  /** Every child comes after its parent and is an element of the document. */
  ghost predicate ChildrenFollow(doc: Document) {
    forall p, k :: 0 <= p < |doc| && 0 <= k < |doc[p].children| ==>
      p < doc[p].children[k] < |doc|
  }

  /** `c` is listed among the children of element `p`. */
  ghost predicate IsChild(doc: Document, p: nat, c: nat) {
    p < |doc| && c in doc[p].children
  }

  /** Some element lists `c` among its children. */
  ghost predicate HasParent(doc: Document, c: nat) {
    exists p: nat :: IsChild(doc, p, c)
  }

  /** The shape of a parsed document: a root, and every other element is
      the child of exactly one element, listed there once. */
  ghost predicate WellFormed(doc: Document) {
    && |doc| > 0
    && ChildrenFollow(doc)
    && (forall p: nat, q: nat, c: nat :: IsChild(doc, p, c) && IsChild(doc, q, c) ==> p == q)
    && (forall p, i, j :: 0 <= p < |doc| && 0 <= i < j < |doc[p].children| ==>
          doc[p].children[i] != doc[p].children[j])
    && (forall c: nat :: 0 < c < |doc| ==> HasParent(doc, c))
  }

  /** `x.iter()`: `x` followed by all its descendants, depth first, in
      document order. */
  function Subtree(doc: Document, x: nat): (r: seq<nat>)
    requires ChildrenFollow(doc) && x < |doc|
    ensures |r| > 0 && r[0] == x
    ensures forall i :: 0 <= i < |r| ==> x <= r[i] < |doc|
    decreases |doc| - x, 1
  {
    [x] + Forest(doc, x, 0)
  }

  /** The subtrees of the children of `x` from the `k`-th on, in order. */
  function Forest(doc: Document, x: nat, k: nat): (r: seq<nat>)
    requires ChildrenFollow(doc) && x < |doc| && k <= |doc[x].children|
    ensures forall i :: 0 <= i < |r| ==> x < r[i] < |doc|
    decreases |doc| - x, 0, |doc[x].children| - k
  {
    if k == |doc[x].children| then []
    else Subtree(doc, doc[x].children[k]) + Forest(doc, x, k + 1)
  }

  /** The descendants of `x`, at any depth, in document order (`x` itself
      excluded). */
  function Descendants(doc: Document, x: nat): (r: seq<nat>)
    requires ChildrenFollow(doc) && x < |doc|
    ensures forall i :: 0 <= i < |r| ==> x < r[i] < |doc|
  {
    Forest(doc, x, 0)
  }

  /** `root.iter()` */
  function Iter(doc: Document): (r: seq<nat>)
    requires ChildrenFollow(doc) && |doc| > 0
    ensures forall i :: 0 <= i < |r| ==> r[i] < |doc|
  {
    Subtree(doc, 0)
  }

  /** The elements of `xs` whose tag is `tag`, in the order of `xs`. */
  function WithTag(doc: Document, xs: seq<nat>, tag: string): (r: seq<nat>)
    requires forall i :: 0 <= i < |xs| ==> xs[i] < |doc|
    ensures |r| <= |xs|
    ensures forall y :: y in r <==> y in xs && doc[y].tag == tag
    ensures forall i :: 0 <= i < |r| ==> r[i] in xs
  {
    if xs == [] then []
    else if doc[xs[0]].tag == tag then [xs[0]] + WithTag(doc, xs[1..], tag)
    else WithTag(doc, xs[1..], tag)
  }

  /** `x.findall('.//' + tag)`: the descendants of `x` with that tag, at any
      depth, in document order. */
  function FindAll(doc: Document, x: nat, tag: string): (r: seq<nat>)
    requires ChildrenFollow(doc) && x < |doc|
    ensures forall y :: y in r <==> y in Descendants(doc, x) && doc[y].tag == tag
    ensures forall i :: 0 <= i < |r| ==> x < r[i] < |doc|
  {
    WithTag(doc, Descendants(doc, x), tag)
  }

  /** `for c in p: m[c] = p` */
  function LinkChildren(m: map<nat, nat>, p: nat, cs: seq<nat>): (r: map<nat, nat>)
    ensures r.Keys == m.Keys + set c | c in cs
    ensures forall c :: c in cs ==> r[c] == p
    ensures forall c :: c in m && c !in cs ==> r[c] == m[c]
    ensures forall c :: c in r ==> r[c] == p || (c in m && r[c] == m[c])
    decreases |cs|
  {
    if cs == [] then m else LinkChildren(m[cs[0] := p], p, cs[1..])
  }

  /** The dictionary comprehension `{c: p for p in order for c in p}`,
      one parent at a time in the order given. */
  function ParentLinks(doc: Document, order: seq<nat>): (r: map<nat, nat>)
    requires forall i :: 0 <= i < |order| ==> order[i] < |doc|
    ensures forall c :: c in r ==> r[c] < |doc|
  {
    if order == [] then map[]
    else
      var p := order[|order| - 1];
      LinkChildren(ParentLinks(doc, order[..|order| - 1]), p, doc[p].children)
  }

  /** The child-to-parent index `{c: p for p in root.iter() for c in p}`. */
  function ParentMap(doc: Document): (r: map<nat, nat>)
    requires ChildrenFollow(doc) && |doc| > 0
    ensures forall c :: c in r ==> r[c] < |doc|
  {
    ParentLinks(doc, Iter(doc))
  }

  // ---------------------------------------------------------------------
  // Document order reaches every element.

  lemma {:induction false} ForestHasChild(doc: Document, x: nat, k: nat, j: nat)
    requires ChildrenFollow(doc) && x < |doc| && k <= j < |doc[x].children|
    ensures doc[x].children[j] in Forest(doc, x, k)
    decreases j - k
  {
    if k < j {
      ForestHasChild(doc, x, k + 1, j);
    }
  }

  /** A child of an element of the subtree of `x` is in the subtree of `x`. */
  lemma {:induction false} SubtreeClosed(doc: Document, x: nat, y: nat, c: nat)
    requires ChildrenFollow(doc) && x < |doc| && y in Subtree(doc, x) && IsChild(doc, y, c)
    ensures c in Subtree(doc, x)
    decreases |doc| - x, 1
  {
    if y == x {
      var j :| 0 <= j < |doc[x].children| && doc[x].children[j] == c;
      ForestHasChild(doc, x, 0, j);
    } else {
      ForestClosed(doc, x, 0, y, c);
    }
  }

  lemma {:induction false} ForestClosed(doc: Document, x: nat, k: nat, y: nat, c: nat)
    requires ChildrenFollow(doc) && x < |doc| && k <= |doc[x].children|
    requires y in Forest(doc, x, k) && IsChild(doc, y, c)
    ensures c in Forest(doc, x, k)
    decreases |doc| - x, 0, |doc[x].children| - k
  {
    var ck := doc[x].children[k];
    if y in Subtree(doc, ck) {
      SubtreeClosed(doc, ck, y, c);
    } else {
      ForestClosed(doc, x, k + 1, y, c);
    }
  }

  /** Every element of a well-formed document is visited by `root.iter()`. */
  lemma {:induction false} Reachable(doc: Document, c: nat)
    requires WellFormed(doc) && c < |doc|
    ensures c in Iter(doc)
    decreases c
  {
    if c > 0 {
      assert HasParent(doc, c);
      var p: nat :| IsChild(doc, p, c);
      var k :| 0 <= k < |doc[p].children| && doc[p].children[k] == c;
      Reachable(doc, p);
      SubtreeClosed(doc, 0, p, c);
    }
  }

  /** `root.iter()` visits exactly the elements of a well-formed document,
      the root first. */
  lemma IterCovers(doc: Document)
    requires WellFormed(doc)
    ensures Iter(doc)[0] == 0
    ensures forall c: nat :: c in Iter(doc) <==> c < |doc|
  {
    forall c: nat | c < |doc| ensures c in Iter(doc) {
      Reachable(doc, c);
    }
  }

  /** The descendants of the root are every element but the root. */
  lemma RootDescendants(doc: Document)
    requires WellFormed(doc)
    ensures forall c: nat :: c in Descendants(doc, 0) <==> 0 < c < |doc|
  {
    IterCovers(doc);
    var it, ds := Iter(doc), Descendants(doc, 0);
    assert it == [0] + ds;
    forall c: nat | 0 < c < |doc| ensures c in ds {
      assert c in it;
      var i :| 0 <= i < |it| && it[i] == c;
      assert i > 0 && ds[i - 1] == c;
    }
  }

  /** Selecting by tag distributes over concatenation, so the selection
      keeps the order of the elements it is taken from. */
  lemma {:induction false} WithTagConcat(doc: Document, xs: seq<nat>, ys: seq<nat>, tag: string)
    requires forall i :: 0 <= i < |xs| ==> xs[i] < |doc|
    requires forall i :: 0 <= i < |ys| ==> ys[i] < |doc|
    ensures WithTag(doc, xs + ys, tag) == WithTag(doc, xs, tag) + WithTag(doc, ys, tag)
  {
    if xs != [] {
      assert (xs + ys)[0] == xs[0];
      assert (xs + ys)[1..] == xs[1..] + ys;
      WithTagConcat(doc, xs[1..], ys, tag);
    } else {
      assert xs + ys == ys;
    }
  }

  // ---------------------------------------------------------------------
  // The shape of the parent index.

  /** Folding over any selection of elements links exactly their children,
      each to its structural parent. */
  lemma {:induction false} ParentLinksSound(doc: Document, order: seq<nat>)
    requires WellFormed(doc)
    requires forall i :: 0 <= i < |order| ==> order[i] < |doc|
    ensures forall c :: c in ParentLinks(doc, order) <==>
      exists i :: 0 <= i < |order| && c in doc[order[i]].children
    ensures forall c :: c in ParentLinks(doc, order) ==>
      IsChild(doc, ParentLinks(doc, order)[c], c)
  {
    if order != [] {
      var init := order[..|order| - 1];
      ParentLinksSound(doc, init);
      forall c
        ensures c in ParentLinks(doc, order) <==>
          exists i :: 0 <= i < |order| && c in doc[order[i]].children
      {
        if c in ParentLinks(doc, init) {
          var i :| 0 <= i < |init| && c in doc[init[i]].children;
          assert order[i] == init[i];
        }
        if c in doc[order[|order| - 1]].children {
        } else if exists i :: 0 <= i < |order| && c in doc[order[i]].children {
          var i :| 0 <= i < |order| && c in doc[order[i]].children;
          assert i < |order| - 1 && init[i] == order[i];
        }
      }
    }
  }

  /** The indices of a document of `n` elements other than the root's. */
  function NonRoot(n: nat): (r: set<nat>)
    ensures forall c: nat :: c in r <==> 0 < c < n
    ensures |r| == if n == 0 then 0 else n - 1
  {
    if n <= 1 then {} else NonRoot(n - 1) + {n - 1}
  }

  /** The parent index has a key for every element except the root. */
  lemma ParentMapKeys(doc: Document)
    requires WellFormed(doc)
    ensures forall c: nat :: c in ParentMap(doc) <==> 0 < c < |doc|
  {
    var pm := ParentMap(doc);
    var order := Iter(doc);
    ParentLinksSound(doc, order);
    forall c: nat | 0 < c < |doc| ensures c in pm {
      assert HasParent(doc, c);
      var p: nat :| IsChild(doc, p, c);
      Reachable(doc, p);
      var i :| 0 <= i < |order| && order[i] == p;
    }
    forall c | c in pm ensures 0 < c < |doc| {
      assert IsChild(doc, pm[c], c);
      var k :| 0 <= k < |doc[pm[c]].children| && doc[pm[c]].children[k] == c;
    }
  }

  /** The parent index sends every element to its immediate structural
      parent, and has one entry per element except the root. */
  lemma ParentMapShape(doc: Document)
    requires WellFormed(doc)
    ensures ParentMap(doc).Keys == NonRoot(|doc|)
    ensures |ParentMap(doc)| == |doc| - 1
    ensures forall p: nat, c: nat :: IsChild(doc, p, c) ==> c in ParentMap(doc) && ParentMap(doc)[c] == p
  {
    var pm := ParentMap(doc);
    ParentMapKeys(doc);
    ParentLinksSound(doc, Iter(doc));
    forall p: nat, c: nat | IsChild(doc, p, c) ensures c in pm && pm[c] == p {
      var k :| 0 <= k < |doc[p].children| && doc[p].children[k] == c;
      assert 0 < c < |doc|;
      assert IsChild(doc, pm[c], c);
    }
    assert pm.Keys == NonRoot(|doc|);
  }
}
