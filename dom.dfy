/**
 * Describing a clicked element: `getElementInfo` and the bounded ancestor
 * walk of `getFullSelector` (public/tracking-script.js:218-271).
 */
module Dom {
  import opened Wrappers
  import opened Records

  /** An element of the page, as far as the two builders read it. */
  datatype Element = Element(
    tagName: string,          // as the DOM reports it (upper case for HTML elements)
    id: string,               // "" when the element has no id
    classes: seq<string>,     // classList, in order
    textContent: string,
    parent: Option<Element>,  // parentElement; None above the root element
    isBody: bool)             // this element is document.body

  /** What an event can target: an Element, or anything else (null, a text node, the document). */
  datatype Target = NotElement | Elem(element: Element)

  /** The default `maxDepth` of getFullSelector. */
  const MaxDepth: nat := 3
  /** getElementInfo keeps at most this many characters of trimmed text. */
  const TextLimit: nat := 20

  function Min(a: int, b: int): int { if a <= b then a else b }

  // ---------------------------------------------------------------------
  // String helpers standing for the JavaScript built-ins the builders call

  function LowerChar(c: char): char {
    if 'A' <= c <= 'Z' then (c as int + 32) as char else c
  }

  /** `toLowerCase` on tag names (HTML tag names are ASCII). */
  function Lower(s: string): (r: string)
    ensures |r| == |s|
    ensures forall i :: 0 <= i < |s| ==> r[i] == LowerChar(s[i])
  {
    if s == [] then [] else [LowerChar(s[0])] + Lower(s[1..])
  }

  /** The characters `String.prototype.trim` strips: ECMAScript WhiteSpace and LineTerminator. */
  predicate IsTrimmable(c: char) {
    var n := c as int;
    n == 0x09 || n == 0x0A || n == 0x0B || n == 0x0C || n == 0x0D || n == 0x20
    || n == 0xA0 || n == 0x1680 || (0x2000 <= n <= 0x200A) || n == 0x2028 || n == 0x2029
    || n == 0x202F || n == 0x205F || n == 0x3000 || n == 0xFEFF
  }

  /** Drops the leading trimmable characters: the result is the suffix starting at the first other one. */
  function TrimStart(s: string): (r: string)
    ensures |r| <= |s| && r == s[|s| - |r|..]
    ensures r == [] || !IsTrimmable(r[0])
    ensures forall k :: 0 <= k < |s| - |r| ==> IsTrimmable(s[k])
  {
    if s != [] && IsTrimmable(s[0]) then TrimStart(s[1..]) else s
  }

  /** Drops the trailing trimmable characters: the result is the prefix ending at the last other one. */
  function TrimEnd(s: string): (r: string)
    ensures |r| <= |s| && r == s[..|r|]
    ensures r == [] || !IsTrimmable(r[|r| - 1])
    ensures forall k :: |r| <= k < |s| ==> IsTrimmable(s[k])
  {
    if s != [] && IsTrimmable(s[|s| - 1]) then TrimEnd(s[..|s| - 1]) else s
  }

  /** `r` is `s[i..j]`, and every character of `s` outside that slice is trimmable. */
  predicate TrimmedSlice(s: string, r: string, i: nat, j: nat) {
    && i <= j <= |s| && r == s[i..j]
    && (forall k :: 0 <= k < i ==> IsTrimmable(s[k]))
    && (forall k :: j <= k < |s| ==> IsTrimmable(s[k]))
  }

  /**
   * `trim()`: removes only leading and trailing trimmable characters, and
   * leaves a slice of `s` with no trimmable character at either end.
   */
  function Trim(s: string): (r: string)
    ensures r == [] || (!IsTrimmable(r[0]) && !IsTrimmable(r[|r| - 1]))
    ensures exists i: nat, j: nat :: TrimmedSlice(s, r, i, j)
  {
    var t := TrimStart(s);
    var r := TrimEnd(t);
    TrimSlices(s, t, r);
    r
  }

  /** Cutting trimmable characters off the front and then off the back leaves a trimmed slice. */
  lemma TrimSlices(s: string, t: string, r: string)
    requires |t| <= |s| && t == s[|s| - |t|..]
    requires forall k :: 0 <= k < |s| - |t| ==> IsTrimmable(s[k])
    requires |r| <= |t| && r == t[..|r|]
    requires forall k :: |r| <= k < |t| ==> IsTrimmable(t[k])
    requires t == [] || !IsTrimmable(t[0])
    requires r == [] || !IsTrimmable(r[|r| - 1])
    ensures r == [] || (!IsTrimmable(r[0]) && !IsTrimmable(r[|r| - 1]))
    ensures TrimmedSlice(s, r, |s| - |t|, |s| - |t| + |r|)
    ensures exists i: nat, j: nat :: TrimmedSlice(s, r, i, j)
  {
    var i := |s| - |t|;
    assert r != [] ==> r[0] == t[0];
    forall k | i + |r| <= k < |s| ensures IsTrimmable(s[k]) {
      assert s[k] == t[k - i];
    }
    assert r == s[i..i + |r|];
    assert TrimmedSlice(s, r, i, i + |r|);
  }

  /** `parts.join(sep)`. */
  function Join(sep: string, parts: seq<string>): string {
    if parts == [] then ""
    else if |parts| == 1 then parts[0]
    else parts[0] + sep + Join(sep, parts[1..])
  }

  function Reverse<T>(s: seq<T>): (r: seq<T>)
    ensures |r| == |s|
    ensures forall k :: 0 <= k < |s| ==> r[k] == s[|s| - 1 - k]
  {
    if s == [] then [] else [s[|s| - 1]] + Reverse(s[..|s| - 1])
  }

  // ---------------------------------------------------------------------
  // getElementInfo

  /** `Array.from(classList).map(c => "." + c).join("")`: ".c1.c2", or "" without classes. */
  function ClassString(classes: seq<string>): string {
    if classes == [] then "" else "." + classes[0] + ClassString(classes[1..])
  }

  /** The `#id` candidate, "" when there is no id. */
  function IdString(e: Element): string {
    if e.id != "" then "#" + e.id else ""
  }

  /** The text candidate: the trimmed text content, cut to its first 20 characters. */
  function TextString(e: Element): string {
    var t := Trim(e.textContent);
    t[..Min(|t|, TextLimit)]
  }

  /** JavaScript's `a || b` on strings. */
  function OrElse(a: string, b: string): string {
    if a != "" then a else b
  }

  /** getElementInfo: "unknown" for a non-Element, else the tag, the best identifier and the selector. */
  function ElementInfoOf(t: Target): (r: ElementInfo)
    ensures t.NotElement? <==> r.Unknown?
    ensures t.Elem? ==> r.tag == Lower(t.element.tagName) && r.fullSelector == FullSelector(t)
  {
    match t
    case NotElement => Unknown
    case Elem(e) =>
      var tag := Lower(e.tagName);
      Info(tag, OrElse(IdString(e), OrElse(ClassString(e.classes), OrElse(TextString(e), tag))), FullSelector(t))
  }

  /** The class part of getElementInfo (map then join "") is the class part of getFullSelector ("." then join "."). */
  lemma {:induction false} ClassStringIsDotJoin(classes: seq<string>)
    requires classes != []
    ensures ClassString(classes) == "." + Join(".", classes)
  {
    if |classes| > 1 {
      ClassStringIsDotJoin(classes[1..]);
      assert ClassString(classes) == "." + classes[0] + ("." + Join(".", classes[1..]));
    }
  }

  /**
   * The identifier is the first non-empty candidate among `#id`, the class
   * string, the trimmed text cut to 20 characters, and the lower-cased tag.
   */
  lemma IdentifierChoice(e: Element)
    ensures var r := ElementInfoOf(Elem(e));
      && (e.id != "" ==> r.identifier == "#" + e.id)
      && (e.id == "" && e.classes != [] ==> r.identifier == "." + Join(".", e.classes))
      && (e.id == "" && e.classes == [] && Trim(e.textContent) != "" ==>
            |r.identifier| == Min(|Trim(e.textContent)|, TextLimit) &&
            r.identifier <= Trim(e.textContent))
      && (e.id == "" && e.classes == [] && Trim(e.textContent) == "" ==> r.identifier == Lower(e.tagName))
  {
    if e.id == "" && e.classes != [] {
      ClassStringIsDotJoin(e.classes);
    }
  }

  // ---------------------------------------------------------------------
  // getFullSelector

  /** One selector segment: the tag, then `#id`, else `.c1.c2` if there are classes. */
  function Segment(e: Element): string {
    Lower(e.tagName) +
      (if e.id != "" then "#" + e.id
       else if |e.classes| > 0 then "." + Join(".", e.classes)
       else "")
  }

  function Segments(path: seq<Element>): (r: seq<string>)
    ensures |r| == |path|
    ensures forall k :: 0 <= k < |path| ==> r[k] == Segment(path[k])
  {
    seq(|path|, k requires 0 <= k < |path| => Segment(path[k]))
  }

  /**
   * The elements the walk visits from `cur` at depth `depth`, innermost first:
   * it stops at document.body, at a missing parent, or at depth MaxDepth.
   */
  function PathFrom(cur: Option<Element>, depth: nat): seq<Element>
    decreases MaxDepth - depth
  {
    if cur.None? || cur.value.isBody || depth >= MaxDepth then []
    else [cur.value] + PathFrom(cur.value.parent, depth + 1)
  }

  /**
   * The walk visits at most MaxDepth - depth elements, none of them
   * document.body, each the parent of the one before; and when it stops
   * short of MaxDepth, the next element was missing or was document.body.
   */
  lemma {:induction false} PathFromShape(cur: Option<Element>, depth: nat)
    ensures var r := PathFrom(cur, depth);
      && (depth <= MaxDepth ==> depth + |r| <= MaxDepth)
      && (r != [] ==> cur == Some(r[0]))
      && (forall k :: 0 <= k < |r| ==> !r[k].isBody)
      && (forall k :: 0 <= k < |r| - 1 ==> r[k].parent == Some(r[k + 1]))
      && (depth + |r| < MaxDepth ==>
            var next := if r == [] then cur else r[|r| - 1].parent;
            next.None? || next.value.isBody)
    decreases MaxDepth - depth
  {
    if !(cur.None? || cur.value.isBody || depth >= MaxDepth) {
      PathFromShape(cur.value.parent, depth + 1);
      var r := PathFrom(cur, depth);
      var rest := PathFrom(cur.value.parent, depth + 1);
      assert r == [cur.value] + rest;
      if rest != [] {
        assert r[1] == rest[0];
      }
    }
  }

  /** The elements getFullSelector visits, starting at the clicked element. */
  function Path(e: Element): seq<Element> {
    PathFrom(Some(e), 0)
  }

  /** `selector = selector ? seg + " > " + selector : seg`. */
  function Prepend(segment: string, selector: string): string {
    if selector != "" then segment + " > " + selector else segment
  }

  /** The selector after the walk has produced `segs`, innermost first. */
  function Assemble(segs: seq<string>): string
    decreases |segs|
  {
    if segs == [] then "" else Prepend(segs[|segs| - 1], Assemble(segs[..|segs| - 1]))
  }

  /** getFullSelector's result, specified over the path the walk visits. */
  function FullSelector(t: Target): string {
    match t
    case NotElement => "unknown"
    case Elem(e) => Assemble(Segments(Path(e)))
  }

  lemma {:induction false} JoinNonEmpty(sep: string, parts: seq<string>)
    requires parts != [] && parts[0] != ""
    ensures Join(sep, parts) != ""
  {
    if |parts| > 1 {
      assert Join(sep, parts) == parts[0] + sep + Join(sep, parts[1..]);
      assert Join(sep, parts)[0] == parts[0][0];
    }
  }

  /** With non-empty segments, assembling is joining them with " > ", outermost first. */
  lemma {:induction false} AssembleIsJoin(segs: seq<string>)
    requires forall k :: 0 <= k < |segs| ==> segs[k] != ""
    ensures Assemble(segs) == Join(" > ", Reverse(segs))
  {
    if segs != [] {
      var init, last := segs[..|segs| - 1], segs[|segs| - 1];
      AssembleIsJoin(init);
      var rev := Reverse(segs);
      assert rev == [last] + Reverse(init);
      assert rev[1..] == Reverse(init);
      if init != [] {
        JoinNonEmpty(" > ", Reverse(init));
      }
    }
  }

  /**
   * When every visited element has a tag name, the selector holds at most
   * three segments, joined by " > " with the clicked element's segment last.
   */
  lemma SelectorShape(e: Element)
    requires forall k :: 0 <= k < |Path(e)| ==> Path(e)[k].tagName != ""
    ensures |Path(e)| <= MaxDepth
    ensures FullSelector(Elem(e)) == Join(" > ", Reverse(Segments(Path(e))))
  {
    PathFromShape(Some(e), 0);
    var segs := Segments(Path(e));
    forall k | 0 <= k < |segs| ensures segs[k] != "" {
      assert |Segment(Path(e)[k])| >= |Lower(Path(e)[k].tagName)|;
    }
    AssembleIsJoin(segs);
  }

  /** One step of the walk: the segment of a visited element goes in front of the selector so far. */
  lemma AssembleStep(visited: seq<Element>, element: Element)
    ensures Assemble(Segments(visited + [element])) == Prepend(Segment(element), Assemble(Segments(visited)))
  {
    var segs := Segments(visited + [element]);
    assert |segs| == |visited| + 1;
    assert segs[..|visited|] == Segments(visited);
    assert segs[|visited|] == Segment(element);
  }

  /** The segment one iteration of getFullSelector builds for an element. */
  method SegmentOf(element: Element) returns (segment: string)
    ensures segment == Segment(element)
  {
    segment := Lower(element.tagName);
    if element.id != "" {
      segment := segment + "#" + element.id;
    } else if |element.classes| > 0 {
      segment := segment + "." + Join(".", element.classes);
    }
  }

  /** getFullSelector, walking up from the element with a bounded loop. */
  method GetFullSelector(t: Target) returns (selector: string)
    ensures selector == FullSelector(t)
  {
    if t.NotElement? {
      return "unknown";
    }
    var e := t.element;
    selector := "";
    var current := Some(e);
    var depth: nat := 0;
    ghost var visited: seq<Element> := [];
    while current.Some? && !current.value.isBody && depth < MaxDepth
      invariant depth <= MaxDepth && |visited| == depth
      invariant Path(e) == visited + PathFrom(current, depth)
      invariant selector == Assemble(Segments(visited))
      decreases MaxDepth - depth
    {
      var element := current.value;
      var segment := SegmentOf(element);
      selector := if selector != "" then segment + " > " + selector else segment;
      assert PathFrom(current, depth) == [element] + PathFrom(element.parent, depth + 1);
      AssembleStep(visited, element);
      visited := visited + [element];
      current := element.parent;
      depth := depth + 1;
    }
    assert PathFrom(current, depth) == [];
    assert Path(e) == visited;
  }

  /** getElementInfo, using the loop above for the selector. */
  method GetElementInfo(t: Target) returns (info: ElementInfo)
    ensures info == ElementInfoOf(t)
  {
    if t.NotElement? {
      return Unknown;
    }
    var e := t.element;
    var tag := Lower(e.tagName);
    var selector := GetFullSelector(t);
    info := Info(tag, OrElse(IdString(e), OrElse(ClassString(e.classes), OrElse(TextString(e), tag))), selector);
  }
}
