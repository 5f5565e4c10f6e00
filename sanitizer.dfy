/** The tag sanitizer applied to the language model's reply.

    The reply is parsed into a document tree; every element whose tag name is
    not one of the seven the chat platform renders is unwrapped, that is,
    replaced in its parent by its own children, so that its text survives.
    The bot does this with a loop over a snapshot of all elements in
    document order (`find_all(True)`), mutating the tree in place; `Soup`
    and `SanitizeDocument` model that loop, and `Sanitize` is the recursive
    "flatten the disallowed elements" specification it is proved against.
 */
module Sanitizer {

  datatype Attribute = Attribute(key: string, value: string)

  /** A parsed document node. `id` stands for the identity of the element
      object, which `unwrap` acts on. */
  datatype Node =
    | Text(content: string)
    | Element(id: nat, name: string, attrs: seq<Attribute>, children: seq<Node>)

  /** An element as `find_all` hands it out: its identity and its name. */
  datatype Tag = Tag(id: nat, name: string)

  const AllowedTags: set<string> := {"b", "i", "u", "a", "code", "pre", "tg-spoiler"}

  predicate Allowed(name: string)
  {
    name in AllowedTags
  }

  // ---------------------------------------------------------------------------
  // Observations of a document
  // ---------------------------------------------------------------------------

  /** `find_all(True)`: every element, in document order. */
  function Tags(ns: seq<Node>): seq<Tag>
    decreases ns
  {
    if ns == [] then [] else NodeTags(ns[0]) + Tags(ns[1..])
  }

  function NodeTags(n: Node): seq<Tag>
    decreases n
  {
    match n
    case Text(_) => []
    case Element(id, name, _, cs) => [Tag(id, name)] + Tags(cs)
  }

  /** `t` is an element somewhere in the document, at any depth. */
  predicate Occurs(ns: seq<Node>, t: Tag)
    decreases ns
  {
    exists i :: 0 <= i < |ns| && NodeOccurs(ns[i], t)
  }

  predicate NodeOccurs(n: Node, t: Tag)
    decreases n
  {
    n.Element? && (Tag(n.id, n.name) == t || Occurs(n.children, t))
  }

  /** The text of the document, in order. */
  function TextOf(ns: seq<Node>): string
    decreases ns
  {
    if ns == [] then "" else NodeText(ns[0]) + TextOf(ns[1..])
  }

  function NodeText(n: Node): string
    decreases n
  {
    match n
    case Text(s) => s
    case Element(_, _, _, cs) => TextOf(cs)
  }

  /** No element of the document has a name outside the allowed set. */
  predicate OnlyAllowed(ns: seq<Node>)
  {
    forall t :: t in Tags(ns) ==> Allowed(t.name)
  }

  /** The allowed tags of a list, in their order. */
  function KeepAllowed(ts: seq<Tag>): (r: seq<Tag>)
    ensures forall t :: t in r <==> t in ts && Allowed(t.name)
  {
    if ts == [] then []
    else if Allowed(ts[0].name) then [ts[0]] + KeepAllowed(ts[1..])
    else KeepAllowed(ts[1..])
  }

  // ---------------------------------------------------------------------------
  // The specification: flatten every disallowed element
  // ---------------------------------------------------------------------------

  function Sanitize(ns: seq<Node>): seq<Node>
    decreases ns
  {
    if ns == [] then [] else SanitizeNode(ns[0]) + Sanitize(ns[1..])
  }

  function SanitizeNode(n: Node): seq<Node>
    decreases n
  {
    match n
    case Text(_) => [n]
    case Element(id, name, attrs, cs) =>
      if Allowed(name) then [Element(id, name, attrs, Sanitize(cs))] else Sanitize(cs)
  }

  // ---------------------------------------------------------------------------
  // The operation: unwrap a set of elements
  // ---------------------------------------------------------------------------

  /** The document after `unwrap()` was called on each element in `gone`. */
  function UnwrapAll(ns: seq<Node>, gone: set<Tag>): seq<Node>
    decreases ns
  {
    if ns == [] then [] else UnwrapNode(ns[0], gone) + UnwrapAll(ns[1..], gone)
  }

  function UnwrapNode(n: Node, gone: set<Tag>): seq<Node>
    decreases n
  {
    match n
    case Text(_) => [n]
    case Element(id, name, attrs, cs) =>
      if Tag(id, name) in gone then UnwrapAll(cs, gone)
      else [Element(id, name, attrs, UnwrapAll(cs, gone))]
  }

  // ---------------------------------------------------------------------------
  // Lemmas: concatenation
  // ---------------------------------------------------------------------------

  lemma {:induction false} TagsAppend(xs: seq<Node>, ys: seq<Node>)
    ensures Tags(xs + ys) == Tags(xs) + Tags(ys)
    decreases xs
  {
    if xs == [] {
      assert xs + ys == ys;
    } else {
      assert (xs + ys)[1..] == xs[1..] + ys;
      TagsAppend(xs[1..], ys);
    }
  }

  lemma {:induction false} TextAppend(xs: seq<Node>, ys: seq<Node>)
    ensures TextOf(xs + ys) == TextOf(xs) + TextOf(ys)
    decreases xs
  {
    if xs == [] {
      assert xs + ys == ys;
    } else {
      assert (xs + ys)[1..] == xs[1..] + ys;
      TextAppend(xs[1..], ys);
    }
  }

  lemma {:induction false} KeepAllowedAppend(xs: seq<Tag>, ys: seq<Tag>)
    ensures KeepAllowed(xs + ys) == KeepAllowed(xs) + KeepAllowed(ys)
    decreases xs
  {
    if xs == [] {
      assert xs + ys == ys;
    } else {
      assert (xs + ys)[1..] == xs[1..] + ys;
      KeepAllowedAppend(xs[1..], ys);
    }
  }

  lemma {:induction false} UnwrapAllAppend(xs: seq<Node>, ys: seq<Node>, gone: set<Tag>)
    ensures UnwrapAll(xs + ys, gone) == UnwrapAll(xs, gone) + UnwrapAll(ys, gone)
    decreases xs
  {
    if xs == [] {
      assert xs + ys == ys;
    } else {
      assert (xs + ys)[1..] == xs[1..] + ys;
      UnwrapAllAppend(xs[1..], ys, gone);
    }
  }

  // ---------------------------------------------------------------------------
  // Lemmas: what sanitizing promises
  // ---------------------------------------------------------------------------

  /** The elements left after sanitizing are exactly the allowed elements of
      the input, in their original order: every disallowed element is gone
      and every allowed one is kept. */
  lemma {:induction false} SanitizeKeepsAllowedTags(ns: seq<Node>)
    ensures Tags(Sanitize(ns)) == KeepAllowed(Tags(ns))
    decreases ns
  {
    if ns != [] {
      SanitizeNodeKeepsAllowedTags(ns[0]);
      SanitizeKeepsAllowedTags(ns[1..]);
      TagsAppend(SanitizeNode(ns[0]), Sanitize(ns[1..]));
      KeepAllowedAppend(NodeTags(ns[0]), Tags(ns[1..]));
    }
  }

  lemma {:induction false} SanitizeNodeKeepsAllowedTags(n: Node)
    ensures Tags(SanitizeNode(n)) == KeepAllowed(NodeTags(n))
    decreases n
  {
    match n
    case Text(_) =>
    case Element(id, name, attrs, cs) =>
      SanitizeKeepsAllowedTags(cs);
      if Allowed(name) {
        var e := Element(id, name, attrs, Sanitize(cs));
        assert Tags([e]) == NodeTags(e) + Tags([]);
      }
  }

  /** After sanitizing, every remaining element has an allowed name. */
  lemma SanitizeOnlyAllowed(ns: seq<Node>)
    ensures OnlyAllowed(Sanitize(ns))
  {
    SanitizeKeepsAllowedTags(ns);
  }

  /** Unwrapping keeps the children, so the text survives, in order. */
  lemma {:induction false} SanitizeKeepsText(ns: seq<Node>)
    ensures TextOf(Sanitize(ns)) == TextOf(ns)
    decreases ns
  {
    if ns != [] {
      SanitizeNodeKeepsText(ns[0]);
      SanitizeKeepsText(ns[1..]);
      TextAppend(SanitizeNode(ns[0]), Sanitize(ns[1..]));
    }
  }

  lemma {:induction false} SanitizeNodeKeepsText(n: Node)
    ensures TextOf(SanitizeNode(n)) == NodeText(n)
    decreases n
  {
    match n
    case Text(s) =>
      assert TextOf([n]) == s + TextOf([]);
    case Element(id, name, attrs, cs) =>
      SanitizeKeepsText(cs);
      if Allowed(name) {
        var e := Element(id, name, attrs, Sanitize(cs));
        assert TextOf([e]) == NodeText(e) + TextOf([]);
      }
  }

  /** A document with only allowed elements is left as it is. */
  lemma {:induction false} SanitizeFixesAllowed(ns: seq<Node>)
    requires OnlyAllowed(ns)
    ensures Sanitize(ns) == ns
    decreases ns
  {
    if ns != [] {
      TagsAppend([ns[0]], ns[1..]);
      assert [ns[0]] + ns[1..] == ns;
      assert Tags([ns[0]]) == NodeTags(ns[0]) + Tags([]);
      SanitizeFixesAllowed(ns[1..]);
      match ns[0]
      case Text(_) =>
      case Element(id, name, attrs, cs) =>
        assert Tag(id, name) in Tags(ns);
        SanitizeFixesAllowed(cs);
    }
  }

  /** Sanitizing twice gives the same document as sanitizing once. */
  lemma SanitizeIdempotent(ns: seq<Node>)
    ensures Sanitize(Sanitize(ns)) == Sanitize(ns)
  {
    SanitizeOnlyAllowed(ns);
    SanitizeFixesAllowed(Sanitize(ns));
  }

  // ---------------------------------------------------------------------------
  // Lemmas: the in-place loop computes the specification
  // ---------------------------------------------------------------------------

  /** Unwrapping nothing leaves the document as it is. */
  lemma {:induction false} UnwrapNothing(ns: seq<Node>)
    ensures UnwrapAll(ns, {}) == ns
    decreases ns
  {
    if ns != [] {
      UnwrapNothing(ns[1..]);
      match ns[0]
      case Text(_) =>
      case Element(_, _, _, cs) =>
        UnwrapNothing(cs);
    }
  }

  /** Unwrapping one set of elements and then another is unwrapping both. */
  lemma {:induction false} UnwrapAllTwice(ns: seq<Node>, a: set<Tag>, b: set<Tag>)
    ensures UnwrapAll(UnwrapAll(ns, a), b) == UnwrapAll(ns, a + b)
    decreases ns
  {
    if ns != [] {
      UnwrapAllAppend(UnwrapNode(ns[0], a), UnwrapAll(ns[1..], a), b);
      UnwrapNodeTwice(ns[0], a, b);
      UnwrapAllTwice(ns[1..], a, b);
    }
  }

  lemma {:induction false} UnwrapNodeTwice(n: Node, a: set<Tag>, b: set<Tag>)
    ensures UnwrapAll(UnwrapNode(n, a), b) == UnwrapNode(n, a + b)
    decreases n
  {
    match n
    case Text(_) =>
      assert UnwrapAll([n], b) == UnwrapNode(n, b) + UnwrapAll([], b);
    case Element(id, name, attrs, cs) =>
      UnwrapAllTwice(cs, a, b);
      if Tag(id, name) !in a {
        var e := Element(id, name, attrs, UnwrapAll(cs, a));
        assert UnwrapAll([e], b) == UnwrapNode(e, b) + UnwrapAll([], b);
      }
  }

  /** Unwrapping exactly the disallowed elements is sanitizing. */
  lemma {:induction false} UnwrapDisallowedIsSanitize(ns: seq<Node>, gone: set<Tag>)
    requires forall t :: t in Tags(ns) ==> (t in gone <==> !Allowed(t.name))
    ensures UnwrapAll(ns, gone) == Sanitize(ns)
    decreases ns
  {
    if ns != [] {
      TagsAppend([ns[0]], ns[1..]);
      assert [ns[0]] + ns[1..] == ns;
      assert Tags([ns[0]]) == NodeTags(ns[0]) + Tags([]);
      UnwrapDisallowedIsSanitize(ns[1..], gone);
      match ns[0]
      case Text(_) =>
      case Element(id, name, attrs, cs) =>
        assert Tag(id, name) in Tags(ns);
        UnwrapDisallowedIsSanitize(cs, gone);
    }
  }

  lemma {:induction false} TagsListElements(ns: seq<Node>, t: Tag)
    ensures t in Tags(ns) <==> Occurs(ns, t)
    decreases ns
  {
    if ns != [] {
      NodeTagsListElements(ns[0], t);
      TagsListElements(ns[1..], t);
      if Occurs(ns[1..], t) {
        var i :| 0 <= i < |ns[1..]| && NodeOccurs(ns[1..][i], t);
        assert NodeOccurs(ns[i + 1], t);
      }
      if Occurs(ns, t) {
        var i :| 0 <= i < |ns| && NodeOccurs(ns[i], t);
        if i > 0 {
          assert ns[1..][i - 1] == ns[i];
        }
      }
    }
  }

  lemma {:induction false} NodeTagsListElements(n: Node, t: Tag)
    ensures t in NodeTags(n) <==> NodeOccurs(n, t)
    decreases n
  {
    if n.Element? {
      TagsListElements(n.children, t);
    }
  }

  lemma AllTagsListElements(ns: seq<Node>)
    ensures forall t :: t in Tags(ns) <==> Occurs(ns, t)
  {
    forall t {
      TagsListElements(ns, t);
    }
  }

  /** The disallowed tags among a snapshot. */
  function Disallowed(ts: seq<Tag>): set<Tag>
  {
    set t | t in ts && !Allowed(t.name)
  }

  /** The parsed document, mutated in place by `unwrap`. */
  class Soup {
    var contents: seq<Node>

    constructor (doc: seq<Node>)
      ensures contents == doc
    {
      contents := doc;
    }

    /** `find_all(True)`: the elements currently in the document, in
        document order; it lists every element at every depth, and nothing
        else. */
    function FindAll(): (r: seq<Tag>)
      reads this
      ensures forall t :: t in r <==> Occurs(contents, t)
    {
      AllTagsListElements(contents);
      Tags(contents)
    }

    /** `tag.unwrap()`: replace the element by its children where it stands. */
    method Unwrap(tag: Tag)
      modifies this
      ensures contents == UnwrapAll(old(contents), {tag})
    {
      contents := UnwrapAll(contents, {tag});
    }
  }

  /** `sanitize_text` on an already parsed reply: take the snapshot of all
      elements, then unwrap each disallowed one in turn. */
  method SanitizeDocument(doc: seq<Node>) returns (r: seq<Node>)
    ensures r == Sanitize(doc)
  {
    var soup := new Soup(doc);
    var snapshot := soup.FindAll();
    var k := 0;
    UnwrapNothing(doc);
    assert Disallowed(snapshot[..0]) == {};
    while k < |snapshot|
      invariant 0 <= k <= |snapshot|
      invariant soup.contents == UnwrapAll(doc, Disallowed(snapshot[..k]))
    {
      var tag := snapshot[k];
      assert snapshot[..k + 1] == snapshot[..k] + [tag];
      if !Allowed(tag.name) {
        UnwrapAllTwice(doc, Disallowed(snapshot[..k]), {tag});
        soup.Unwrap(tag);
        assert Disallowed(snapshot[..k + 1]) == Disallowed(snapshot[..k]) + {tag};
      } else {
        assert Disallowed(snapshot[..k + 1]) == Disallowed(snapshot[..k]);
      }
      k := k + 1;
    }
    assert snapshot[..k] == Tags(doc);
    UnwrapDisallowedIsSanitize(doc, Disallowed(Tags(doc)));
    r := soup.contents;
  }

  /** The example of a script element ahead of a bold one: the script's text
      stays, its tags go, and the bold element is untouched. */
  lemma ScriptIsUnwrapped()
    ensures Sanitize([Element(0, "script", [], [Text("alert(1)")]),
                      Element(1, "b", [], [Text("ok")])])
         == [Text("alert(1)"), Element(1, "b", [], [Text("ok")])]
  {
    var b := Element(1, "b", [], [Text("ok")]);
    assert Sanitize([Text("ok")]) == [Text("ok")];
    assert Sanitize([b]) == [b];
    assert Sanitize([Text("alert(1)")]) == [Text("alert(1)")];
  }
}
