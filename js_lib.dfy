// The small browser helpers shared by the pages: trimString,
// the empty-state placeholder markup, addPlaceholderIfEmpty and map.
// src/js/lib.js, js/lib.js and js/utils.js carry identical copies of
// trimString; js/lib.js, js/utils.js and js/components.js carry the same
// placeholder markup.
module JsLib {
  import opened Wrappers
  import Strings

  // ---------------------------------------------------------------------
  // trimString(str) = str.replace(/^\s+|\s+$/g, '')
  // ---------------------------------------------------------------------

  /** The characters JavaScript's \s matches: ASCII and Unicode white space, line terminators and the BOM. */
  const JsSpace: set<char> := {
    '\t', '\n', Strings.VerticalTab, Strings.FormFeed, '\r', ' ',
    '\U{00A0}', '\U{1680}',
    '\U{2000}', '\U{2001}', '\U{2002}', '\U{2003}', '\U{2004}', '\U{2005}',
    '\U{2006}', '\U{2007}', '\U{2008}', '\U{2009}', '\U{200A}',
    '\U{2028}', '\U{2029}', '\U{202F}', '\U{205F}', '\U{3000}', '\U{FEFF}'
  }

  /** The leading run and the trailing run of \s characters are removed. */
  function TrimString(s: string): (r: string)
    ensures |r| <= |s|
    ensures Strings.EdgesOutside(r, JsSpace)
  {
    Strings.TrimEdges(s, JsSpace);
    Strings.Trim(s, JsSpace)
  }

  /** Only the edge runs go: whatever sits between them is kept unchanged. */
  lemma TrimStringKeepsInterior(lead: string, m: string, trail: string)
    requires Strings.AllIn(lead, JsSpace) && Strings.AllIn(trail, JsSpace)
    requires Strings.EdgesOutside(m, JsSpace)
    ensures TrimString(lead + m + trail) == m
  {
    Strings.TrimUnique(lead, m, trail, JsSpace);
  }

  /** Trimming a trimmed string changes nothing. */
  lemma TrimStringIdempotent(s: string)
    ensures TrimString(TrimString(s)) == TrimString(s)
  {
    Strings.TrimIdempotent(s, JsSpace);
  }

  /** Input made only of white space (a non-breaking space included) becomes "". */
  lemma TrimStringAllSpace(s: string)
    requires Strings.AllIn(s, JsSpace)
    ensures TrimString(s) == ""
    ensures TrimString("\U{00A0} \t") == ""
  {
    Strings.TrimAllSpace(s, JsSpace);
    Strings.TrimAllSpace("\U{00A0} \t", JsSpace);
  }

  // ---------------------------------------------------------------------
  // The empty-state placeholder
  // ---------------------------------------------------------------------

  const PlaceholderClass: string := "empty-placeholder"

  /** `sub` occurs in `s` at position `k`. */
  predicate InfixAt(s: string, sub: string, k: int)
  {
    0 <= k <= |s| - |sub| && s[k..k + |sub|] == sub
  }

  /** `sub` occurs in `s`. */
  ghost predicate HasInfix(s: string, sub: string)
  {
    exists k :: InfixAt(s, sub, k)
  }

  /** getEmptyPlaceholer / emptyPlaceholder: the markup of the placeholder span. */
  function EmptyPlaceholder(): (html: string)
    ensures HasInfix(html, PlaceholderClass)
    ensures html[..6] == "<span " && html[|html| - 7..] == "</span>"
  {
    var head := "<span class=\"text-secondary ";
    var tail := "\">¯\\_(ツ)_/¯ Leeg~</span>";
    var html := head + PlaceholderClass + tail;
    assert html[|head|..|head| + |PlaceholderClass|] == PlaceholderClass;
    assert InfixAt(html, PlaceholderClass, |head|);
    assert html[..6] == head[..6];
    assert html[|html| - 7..] == tail[|tail| - 7..];
    html
  }

  /** A child element, seen through its class list. */
  datatype Child = Child(classes: set<string>)

  predicate Hidden(c: Child)
  {
    "d-none" in c.classes
  }

  predicate IsPlaceholder(c: Child)
  {
    PlaceholderClass in c.classes
  }

  /** The element the placeholder markup creates: it carries no d-none class. */
  const PlaceholderNode: Child := Child({"text-secondary", PlaceholderClass})

  /** The number of hidden children. */
  function CountHidden(cs: seq<Child>): (n: nat)
    ensures n <= |cs|
  {
    if cs == [] then 0 else CountHidden(cs[..|cs| - 1]) + (if Hidden(cs[|cs| - 1]) then 1 else 0)
  }

  /** Comparing the hidden count with the child count asks whether every child is hidden. */
  lemma {:induction false} CountHiddenAll(cs: seq<Child>)
    ensures CountHidden(cs) == |cs| <==> forall i :: 0 <= i < |cs| ==> Hidden(cs[i])
  {
    if cs != [] {
      var init := cs[..|cs| - 1];
      CountHiddenAll(init);
      assert forall i :: 0 <= i < |init| ==> init[i] == cs[i];
    }
  }

  /**
   * The position of the first placeholder child, |cs| when there is none.
   * Only direct children are searched; querySelector would also find a
   * placeholder nested deeper.
   */
  function FirstPlaceholder(cs: seq<Child>): (k: nat)
    ensures k <= |cs|
    ensures k < |cs| ==> IsPlaceholder(cs[k])
    ensures forall j :: 0 <= j < k ==> !IsPlaceholder(cs[j])
  {
    if cs == [] then 0
    else if IsPlaceholder(cs[0]) then 0
    else 1 + FirstPlaceholder(cs[1..])
  }

  /** The children with the first placeholder among them removed, if there is one. */
  function RemoveFirstPlaceholder(cs: seq<Child>): seq<Child>
  {
    var k := FirstPlaceholder(cs);
    if k < |cs| then cs[..k] + cs[k + 1..] else cs
  }

  /** What addPlaceholderIfEmpty does once the callback has run on every child. */
  function PlaceholderStep(cs: seq<Child>): seq<Child>
  {
    if |cs| == 0 || CountHidden(cs) == |cs| then [PlaceholderNode] + cs
    else RemoveFirstPlaceholder(cs)
  }

  /** A child after the optional callback has run on it. */
  function Visit(callback: Option<Child -> Child>, c: Child): Child
  {
    if callback.Some? then callback.value(c) else c
  }

  /** The callback applied to every child, in order. */
  function ApplyCallback(callback: Option<Child -> Child>, cs: seq<Child>): (r: seq<Child>)
    ensures |r| == |cs|
    ensures forall i :: 0 <= i < |cs| ==> r[i] == Visit(callback, cs[i])
  {
    seq(|cs|, i requires 0 <= i < |cs| => Visit(callback, cs[i]))
  }

  /**
   * A placeholder is put in front exactly when every child is hidden (no child
   * at all included); otherwise the children are kept except that the first
   * placeholder among them, if any, is dropped.
   */
  lemma PlaceholderInsertedIff(cs: seq<Child>)
    ensures (forall i :: 0 <= i < |cs| ==> Hidden(cs[i])) ==> PlaceholderStep(cs) == [PlaceholderNode] + cs
    ensures (exists i :: 0 <= i < |cs| && !Hidden(cs[i])) ==> PlaceholderStep(cs) == RemoveFirstPlaceholder(cs)
  {
    CountHiddenAll(cs);
  }

  /**
   * The inserted placeholder is itself a visible child, so calling the helper
   * again on a container whose children are all hidden removes it again.
   */
  lemma PlaceholderStepToggles(cs: seq<Child>)
    requires forall i :: 0 <= i < |cs| ==> Hidden(cs[i])
    ensures PlaceholderStep(PlaceholderStep(cs)) == cs
  {
    PlaceholderInsertedIff(cs);
    var once := [PlaceholderNode] + cs;
    assert !Hidden(once[0]);
    PlaceholderInsertedIff(once);
    assert IsPlaceholder(once[0]);
    assert once[1..] == cs;
  }

  /** A page element that holds child elements. */
  class Container {
    var children: seq<Child>

    constructor (cs: seq<Child>)
      ensures children == cs
    {
      children := cs;
    }

    /** addPlaceholderIfEmpty on one element. */
    method AddPlaceholderIfEmpty(callback: Option<Child -> Child>)
      modifies this
      ensures children == PlaceholderStep(ApplyCallback(callback, old(children)))
    {
      var childrenCount := |children|;
      var hiddenCount := 0;
      for i := 0 to childrenCount
        invariant |children| == childrenCount
        invariant forall j :: 0 <= j < i ==> children[j] == Visit(callback, old(children)[j])
        invariant forall j :: i <= j < childrenCount ==> children[j] == old(children)[j]
        invariant hiddenCount == CountHidden(children[..i])
      {
        if callback.Some? {
          children := children[i := callback.value(children[i])];
        }
        assert children[..i + 1][..i] == children[..i];
        if Hidden(children[i]) {
          hiddenCount := hiddenCount + 1;
        }
      }
      assert children[..childrenCount] == children;
      assert children == ApplyCallback(callback, old(children));
      var childrenHidden := hiddenCount == childrenCount;
      if childrenCount == 0 || childrenHidden {
        children := [PlaceholderNode] + children;
      } else {
        children := RemoveFirstPlaceholder(children);
      }
    }
  }

  /** addPlaceholderIfEmpty on a NodeList or array: each element in turn. */
  method AddPlaceholderToAll(parents: seq<Container>, callback: Option<Child -> Child>)
    requires forall i, j :: 0 <= i < j < |parents| ==> parents[i] != parents[j]
    modifies set p | p in parents
    ensures forall i :: 0 <= i < |parents| ==>
      parents[i].children == PlaceholderStep(ApplyCallback(callback, old(parents[i].children)))
  {
    for i := 0 to |parents|
      invariant forall j :: 0 <= j < i ==>
        parents[j].children == PlaceholderStep(ApplyCallback(callback, old(parents[j].children)))
      invariant forall j :: i <= j < |parents| ==> parents[j].children == old(parents[j].children)
    {
      parents[i].AddPlaceholderIfEmpty(callback);
    }
  }

  // ---------------------------------------------------------------------
  // map(iter, callback)
  // ---------------------------------------------------------------------

  /**
   * map on an array: the callback's result for every element, in order.
   * The guard's other outcomes (null for 0 or false, a TypeError for null,
   * undefined or a string) concern arguments that are not arrays.
   */
  method Map<T, U>(iter: seq<T>, callback: T -> U) returns (res: seq<U>)
    ensures |res| == |iter|
    ensures forall i :: 0 <= i < |iter| ==> res[i] == callback(iter[i])
  {
    res := [];
    for i := 0 to |iter|
      invariant |res| == i
      invariant forall j :: 0 <= j < i ==> res[j] == callback(iter[j])
    {
      res := res + [callback(iter[i])];
    }
  }
}
