/**
 * The raw XML text of `GET /installations-maj-2021.xml`, as assembled from
 * fixed tags and the three encoded groups before it is parsed and
 * pretty-printed.
 */
module Xml {
  import opened Strings
  import opened Records
  import opened Responses

  const Declaration: string := "<?xml version=\"1.0\" encoding=\"utf-8\"?>"

  /** The seven pieces of the text, in the order they are listed; each fixed piece spelled tag by tag. */
  function Fragments(slides: string, aquatic: string, rinks: string): seq<string> {
    [Declaration + "<installations>" + "<glissades>",
     slides,
     "</glissades>" + "<installations_aquatiques>",
     aquatic,
     "</installations_aquatiques>" + "<patinoires>",
     rinks,
     "</patinoires>" + "</installations>"]
  }

  /** `''.join(parts)`. */
  function Join(parts: seq<string>): string {
    if parts == [] then "" else parts[0] + Join(parts[1..])
  }

  function Open(tag: string): string { "<" + tag + ">" }
  function Close(tag: string): string { "</" + tag + ">" }

  /** A reference reading of the text: nested elements, with the encoded groups as raw markup. */
  datatype Node = Element(tag: string, children: seq<Node>) | Markup(text: string)

  function Render(n: Node): string
    decreases n
  {
    match n
    case Element(tag, children) => Open(tag) + RenderAll(children) + Close(tag)
    case Markup(text) => text
  }

  function RenderAll(ns: seq<Node>): string
    decreases ns
  {
    if ns == [] then "" else Render(ns[0]) + RenderAll(ns[1..])
  }

  /** The `installations` root holding the three containers in their fixed order. */
  function Tree(slides: string, aquatic: string, rinks: string): Node {
    Element("installations", [
      Element("glissades", [Markup(slides)]),
      Element("installations_aquatiques", [Markup(aquatic)]),
      Element("patinoires", [Markup(rinks)])])
  }

  lemma RootTags()
    ensures "<installations>" == Open("installations") && "</installations>" == Close("installations")
  {
  }

  lemma SlideTags()
    ensures "<glissades>" == Open("glissades") && "</glissades>" == Close("glissades")
  {
  }

  lemma AquaticOpenTag()
    ensures "<installations_aquatiques>" == Open("installations_aquatiques")
  {
  }

  lemma AquaticCloseTag()
    ensures "</installations_aquatiques>" == Close("installations_aquatiques")
  {
  }

  lemma RinkTags()
    ensures "<patinoires>" == Open("patinoires") && "</patinoires>" == Close("patinoires")
  {
  }

  /** A container element wrapping one piece of markup renders as open tag, markup, close tag. */
  lemma RenderContainer(tag: string, text: string)
    ensures Render(Element(tag, [Markup(text)])) == Open(tag) + text + Close(tag)
  {
    assert RenderAll([Markup(text)]) == text;
  }

  lemma JoinCons(x: string, rest: seq<string>)
    ensures Join([x] + rest) == x + Join(rest)
  {
    assert ([x] + rest)[1..] == rest;
  }

  lemma JoinThree(p4: string, p5: string, p6: string)
    ensures Join([p4, p5, p6]) == p4 + (p5 + p6)
  {
    JoinCons(p6, []);
    assert [p5, p6] == [p5] + [p6];
    JoinCons(p5, [p6]);
    assert [p4, p5, p6] == [p4] + [p5, p6];
    JoinCons(p4, [p5, p6]);
  }

  lemma JoinFive(p2: string, p3: string, p4: string, p5: string, p6: string)
    ensures Join([p2, p3, p4, p5, p6]) == p2 + (p3 + (p4 + (p5 + p6)))
  {
    JoinThree(p4, p5, p6);
    assert [p3, p4, p5, p6] == [p3] + [p4, p5, p6];
    JoinCons(p3, [p4, p5, p6]);
    assert [p2, p3, p4, p5, p6] == [p2] + [p3, p4, p5, p6];
    JoinCons(p2, [p3, p4, p5, p6]);
  }

  /** `''.join` of seven pieces is their concatenation. */
  lemma JoinSeven(p0: string, p1: string, p2: string, p3: string, p4: string, p5: string, p6: string)
    ensures Join([p0, p1, p2, p3, p4, p5, p6]) == p0 + (p1 + (p2 + (p3 + (p4 + (p5 + p6)))))
  {
    JoinFive(p2, p3, p4, p5, p6);
    assert [p1, p2, p3, p4, p5, p6] == [p1] + [p2, p3, p4, p5, p6];
    JoinCons(p1, [p2, p3, p4, p5, p6]);
    assert [p0, p1, p2, p3, p4, p5, p6] == [p0] + [p1, p2, p3, p4, p5, p6];
    JoinCons(p0, [p1, p2, p3, p4, p5, p6]);
  }

  /** The fragment list for arbitrary tag names, root `root` and containers `t1`, `t2`, `t3`. */
  lemma JoinedIsNestedFor(decl: string, root: string, t1: string, t2: string, t3: string, s: string, a: string, r: string)
    ensures Join([decl + Open(root) + Open(t1), s, Close(t1) + Open(t2), a, Close(t2) + Open(t3), r, Close(t3) + Close(root)])
      == decl + Render(Element(root, [Element(t1, [Markup(s)]), Element(t2, [Markup(a)]), Element(t3, [Markup(r)])]))
  {
    JoinSeven(decl + Open(root) + Open(t1), s, Close(t1) + Open(t2), a, Close(t2) + Open(t3), r, Close(t3) + Close(root));
    var g := Element(t1, [Markup(s)]);
    var m := Element(t2, [Markup(a)]);
    var p := Element(t3, [Markup(r)]);
    RenderContainer(t1, s);
    RenderContainer(t2, a);
    RenderContainer(t3, r);
    assert RenderAll([g, m, p]) == Render(g) + Render(m) + Render(p) by {
      assert [g, m, p][1..] == [m, p];
      assert [m, p][1..] == [p];
      assert RenderAll([p]) == Render(p);
    }
    Regroup(decl, Open(root), Open(t1), s, Close(t1), Open(t2), a, Close(t2), Open(t3), r, Close(t3), Close(root));
  }

  /** Regrouping the seven pieces around the three containers. */
  lemma Regroup(decl: string, or: string, o1: string, s: string, c1: string, o2: string, a: string,
                c2: string, o3: string, r: string, c3: string, cr: string)
    ensures (decl + or + o1) + (s + ((c1 + o2) + (a + ((c2 + o3) + (r + (c3 + cr))))))
      == decl + (or + ((o1 + s + c1) + (o2 + a + c2) + (o3 + r + c3)) + cr)
  {
  }

  /**
   * The flat concatenation is the declaration followed by the `installations`
   * element whose children are `glissades`, `installations_aquatiques` and
   * `patinoires`, in that order, each wrapping its own group.
   */
  lemma JoinedIsNested(slides: string, aquatic: string, rinks: string)
    ensures Join(Fragments(slides, aquatic, rinks)) == Declaration + Render(Tree(slides, aquatic, rinks))
  {
    RootTags();
    SlideTags();
    AquaticOpenTag();
    AquaticCloseTag();
    RinkTags();
    JoinedIsNestedFor(Declaration, "installations", "glissades", "installations_aquatiques", "patinoires", slides, aquatic, rinks);
  }

  /**
   * The text of the XML endpoint before parsing: the groups of the 2021 year
   * query, slides, aquatic installations, rinks, each encoded by `encode`.
   */
  function UpdatedXmlText<D>(db: Database, schemas: Schemas<D>, encode: seq<D> -> string): (xml: string)
    ensures var g := FacilitiesUpdated(db, Year, schemas);
      xml == Declaration + Render(Tree(encode(g.slides), encode(g.aquatic), encode(g.rinks)))
  {
    var g := FacilitiesUpdated(db, Year, schemas);
    JoinedIsNested(encode(g.slides), encode(g.aquatic), encode(g.rinks));
    Join(Fragments(encode(g.slides), encode(g.aquatic), encode(g.rinks)))
  }

  /**
   * The text opens with the declaration, the root and the slide container
   * followed by the slide group, and closes with the rink group, the rink
   * container and the root.
   */
  lemma XmlFraming(slides: string, aquatic: string, rinks: string)
    ensures var xml := Join(Fragments(slides, aquatic, rinks));
      && StartsWith(xml, Declaration + Open("installations") + Open("glissades") + slides)
      && EndsWith(xml, rinks + Close("patinoires") + Close("installations"))
  {
    JoinSeven(Declaration + "<installations>" + "<glissades>", slides, "</glissades>" + "<installations_aquatiques>",
      aquatic, "</installations_aquatiques>" + "<patinoires>", rinks, "</patinoires>" + "</installations>");
    RootTags();
    SlideTags();
    AquaticOpenTag();
    AquaticCloseTag();
    RinkTags();
    Framed(Declaration, Open("installations"), Open("glissades"), slides,
      Close("glissades") + Open("installations_aquatiques"), aquatic,
      Close("installations_aquatiques") + Open("patinoires"), rinks,
      Close("patinoires"), Close("installations"));
  }

  /** The seven pieces start with the first two and end with the last two. */
  lemma Framed(d: string, or: string, o1: string, s: string, m1: string, a: string, m2: string,
               r: string, c3: string, cr: string)
    ensures var xml := (d + or + o1) + (s + (m1 + (a + (m2 + (r + (c3 + cr))))));
      StartsWith(xml, d + or + o1 + s) && EndsWith(xml, r + c3 + cr)
  {
    var xml := (d + or + o1) + (s + (m1 + (a + (m2 + (r + (c3 + cr))))));
    var head, tail := d + or + o1 + s, r + c3 + cr;
    assert xml == head + (m1 + a + m2) + tail;
    assert xml[..|head|] == head;
    assert xml[|xml| - |tail|..] == tail;
  }
}
