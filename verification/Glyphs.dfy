/** A message and its escaped form side by side: the same items, some of which look different once escaped. */
module Glyphs {
  import opened Text
  import opened Escape
  import opened EscapeLaws
  import opened LinkLaws

  /** An item of a message; escaping keeps it as it is, or writes an entity for it. */
  datatype Glyph = Glyph(item: Item, kept: bool)

  /** Only the special characters &, < and > are ever changed. */
  predicate IsGlyph(g: Glyph) {
    Proper(g.item) && (g.item.Plain? || g.item.Ref? ==> g.kept)
  }

  predicate AllGlyphs(gs: seq<Glyph>) {
    forall i :: 0 <= i < |gs| ==> IsGlyph(gs[i])
  }

  /** The glyph in the message or in the escaped message. */
  function Shown(g: Glyph, escaped: bool): string {
    if escaped && !g.kept then Show(g.item, InEscaped) else Source(g.item)
  }

  function Reads(gs: seq<Glyph>, escaped: bool): string {
    if gs == [] then "" else Shown(gs[0], escaped) + Reads(gs[1..], escaped)
  }

  /** The inside of a link keeps everything but brackets. */
  function InsideLink(items: seq<Item>): (gs: seq<Glyph>)
    ensures |gs| == |items|
  {
    seq(|items|, i requires 0 <= i < |items| => Glyph(items[i], items[i] != Lt && items[i] != Gt))
  }

  /** What escaping keeps of a message: plain characters, references, the brackets of links and ampersands inside them. */
  function GlyphsOf(items: seq<Item>): seq<Glyph>
    decreases |items|
  {
    if items == [] then []
    else
      match LinkItems(items)
      case Some(k) =>
        [Glyph(Lt, true)] + (InsideLink(items[1..1 + k]) + ([Glyph(Gt, true)] + GlyphsOf(items[k + 2..])))
      case None => [Glyph(items[0], items[0].Plain? || items[0].Ref?)] + GlyphsOf(items[1..])
  }

  lemma ReadsCons(g: Glyph, gs: seq<Glyph>, escaped: bool)
    ensures Reads([g] + gs, escaped) == Shown(g, escaped) + Reads(gs, escaped)
  {
    assert ([g] + gs)[1..] == gs;
  }

  lemma {:induction false} ReadsAppend(a: seq<Glyph>, b: seq<Glyph>, escaped: bool)
    ensures Reads(a + b, escaped) == Reads(a, escaped) + Reads(b, escaped)
  {
    if a == [] {
      assert a + b == b;
    } else {
      assert (a + b)[1..] == a[1..] + b;
      ReadsAppend(a[1..], b, escaped);
      Associate(Shown(a[0], escaped), Reads(a[1..], escaped), Reads(b, escaped));
    }
  }

  lemma {:induction false} InsideReads(items: seq<Item>)
    ensures Reads(InsideLink(items), false) == Flat(items, InMessage)
    ensures Reads(InsideLink(items), true) == Flat(items, InLink)
  {
    if items != [] {
      assert InsideLink(items)[1..] == InsideLink(items[1..]);
      InsideReads(items[1..]);
    }
  }

  lemma LinkReads(group: seq<Item>, rest: seq<Glyph>, escaped: bool)
    ensures Reads([Glyph(Lt, true)] + (InsideLink(group) + ([Glyph(Gt, true)] + rest)), escaped) ==
      "<" + (Reads(InsideLink(group), escaped) + (">" + Reads(rest, escaped)))
  {
    ReadsCons(Glyph(Gt, true), rest, escaped);
    ReadsAppend(InsideLink(group), [Glyph(Gt, true)] + rest, escaped);
    ReadsCons(Glyph(Lt, true), InsideLink(group) + ([Glyph(Gt, true)] + rest), escaped);
  }

  lemma {:induction false} LinkGlyphsRead(items: seq<Item>, k: nat)
    requires LinkItems(items) == Some(k)
    requires Reads(GlyphsOf(items[k + 2..]), false) == Flat(items[k + 2..], InMessage)
    requires Reads(GlyphsOf(items[k + 2..]), true) == LinkedText(items[k + 2..])
    ensures Reads(GlyphsOf(items), false) == Flat(items, InMessage)
    ensures Reads(GlyphsOf(items), true) == LinkedText(items)
  {
    var group, rest := items[1..1 + k], items[k + 2..];
    InsideReads(group);
    LinkReads(group, GlyphsOf(rest), false);
    LinkReads(group, GlyphsOf(rest), true);
    BracketedFlat(items, k, InMessage);
  }

  lemma {:induction false} ItemGlyphsRead(items: seq<Item>)
    requires items != [] && LinkItems(items) == None
    requires Reads(GlyphsOf(items[1..]), false) == Flat(items[1..], InMessage)
    requires Reads(GlyphsOf(items[1..]), true) == LinkedText(items[1..])
    ensures Reads(GlyphsOf(items), false) == Flat(items, InMessage)
    ensures Reads(GlyphsOf(items), true) == LinkedText(items)
  {
    var g := Glyph(items[0], items[0].Plain? || items[0].Ref?);
    ReadsCons(g, GlyphsOf(items[1..]), false);
    ReadsCons(g, GlyphsOf(items[1..]), true);
  }

  /** The glyphs of a message read as the message and as the escaped message. */
  lemma {:induction false} GlyphsRead(items: seq<Item>)
    ensures Reads(GlyphsOf(items), false) == Flat(items, InMessage)
    ensures Reads(GlyphsOf(items), true) == LinkedText(items)
    decreases |items|
  {
    if items != [] {
      match LinkItems(items) {
        case Some(k) =>
          GlyphsRead(items[k + 2..]);
          LinkGlyphsRead(items, k);
        case None =>
          GlyphsRead(items[1..]);
          ItemGlyphsRead(items);
      }
    }
  }

  lemma InsideIsGlyphs(group: seq<Item>)
    requires AllProper(group)
    ensures AllGlyphs(InsideLink(group))
  {
  }

  lemma {:induction false} GlyphsAreGlyphs(items: seq<Item>)
    requires AllProper(items)
    ensures AllGlyphs(GlyphsOf(items))
    decreases |items|
  {
    if items != [] {
      match LinkItems(items) {
        case Some(k) =>
          GlyphsAreGlyphs(items[k + 2..]);
          InsideIsGlyphs(items[1..1 + k]);
        case None => GlyphsAreGlyphs(items[1..]);
      }
    }
  }

  predicate ShowsItems(gs: seq<Glyph>, items: seq<Item>) {
    |gs| == |items| && forall i :: 0 <= i < |items| ==> gs[i].item == items[i]
  }

  lemma ShowsJoin(p: seq<Glyph>, a: seq<Item>, q: seq<Glyph>, b: seq<Item>)
    requires ShowsItems(p, a) && ShowsItems(q, b)
    ensures ShowsItems(p + q, a + b)
  {
  }

  lemma LinkParts(items: seq<Item>, k: nat)
    requires k + 2 <= |items| && items[0] == Lt && items[1 + k] == Gt
    ensures items == [Lt] + (items[1..1 + k] + ([Gt] + items[k + 2..]))
  {
  }

  lemma LinkShows(group: seq<Item>, gs: seq<Glyph>, rest: seq<Item>)
    requires ShowsItems(gs, rest)
    ensures ShowsItems([Glyph(Lt, true)] + (InsideLink(group) + ([Glyph(Gt, true)] + gs)), [Lt] + (group + ([Gt] + rest)))
  {
    ShowsJoin([Glyph(Gt, true)], [Gt], gs, rest);
    ShowsJoin(InsideLink(group), group, [Glyph(Gt, true)] + gs, [Gt] + rest);
    ShowsJoin([Glyph(Lt, true)], [Lt], InsideLink(group) + ([Glyph(Gt, true)] + gs), group + ([Gt] + rest));
  }

  lemma {:induction false} GlyphsShowItems(items: seq<Item>)
    ensures ShowsItems(GlyphsOf(items), items)
    decreases |items|
  {
    if items != [] {
      match LinkItems(items) {
        case Some(k) =>
          GlyphsShowItems(items[k + 2..]);
          LinkShows(items[1..1 + k], GlyphsOf(items[k + 2..]), items[k + 2..]);
          LinkParts(items, k);
        case None =>
          GlyphsShowItems(items[1..]);
          ShowsJoin([Glyph(items[0], items[0].Plain? || items[0].Ref?)], [items[0]], GlyphsOf(items[1..]), items[1..]);
          assert items == [items[0]] + items[1..];
      }
    }
  }

  function MessageGlyphs(s: string): seq<Glyph> { GlyphsOf(Lex(s)) }

  lemma MessageReads(s: string)
    ensures AllGlyphs(MessageGlyphs(s))
    ensures Reads(MessageGlyphs(s), false) == s && Reads(MessageGlyphs(s), true) == Escaped(s)
  {
    LexIsProper(s);
    LexIsFaithful(s);
    EscapedShowsItems(s);
    GlyphsAreGlyphs(Lex(s));
    GlyphsRead(Lex(s));
  }

  // ---- one glyph ----

  lemma GlyphText(g: Glyph, escaped: bool)
    requires IsGlyph(g)
    ensures var x := Shown(g, escaped);
      && x != "" && (g.item.Plain? ==> x == [g.item.c] && IsPlain(x[0])) && (!g.item.Plain? ==> !IsPlain(x[0]))
  {
  }

  lemma FirstGlyph(gs: seq<Glyph>, escaped: bool)
    requires gs != [] && AllGlyphs(gs)
    ensures var x, s := Shown(gs[0], escaped), Reads(gs, escaped);
      && x != "" && |x| <= |s| && s[0] == x[0] && s[|x|..] == Reads(gs[1..], escaped)
      && (gs[0].item.Plain? ==> x == [gs[0].item.c] && IsPlain(x[0])) && (!gs[0].item.Plain? ==> !IsPlain(x[0]))
  {
    GlyphText(gs[0], escaped);
  }
}
