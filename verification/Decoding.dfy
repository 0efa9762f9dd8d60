/** Reading an escaped message back: what it gives, and exactly when that is the message. */
module Decoding {
  import opened Text
  import opened Escape
  import opened EscapeLaws
  import opened LinkLaws
  import opened WrittenLinks

  /** What Slack shows for an escaped text: &lt;, &gt; and &amp; decoded in one pass. */
  function Decode(e: string): string {
    if e == "" then ""
    else if LT <= e then "<" + Decode(e[4..])
    else if GT <= e then ">" + Decode(e[4..])
    else if AMP <= e then "&" + Decode(e[5..])
    else [e[0]] + Decode(e[1..])
  }

  /** The items start with what turns a bare ampersand into an entity. */
  predicate SpellsEntity(items: seq<Item>) {
    Spells(items, "lt;") || Spells(items, "gt;") || Spells(items, "amp;")
  }

  /** No ampersand of the link becomes part of an entity once it is restored. */
  predicate SafeGroup(items: seq<Item>) {
    items == [] || ((items[0] == Amp ==> !SpellsEntity(items[1..])) && SafeGroup(items[1..]))
  }

  /** Every link of the message is safe. */
  predicate Lossless(items: seq<Item>)
    decreases |items|
  {
    items == [] ||
    match LinkItems(items)
    case Some(k) => SafeGroup(items[1..1 + k]) && Lossless(items[k + 2..])
    case None => Lossless(items[1..])
  }

  // ---- decoding item by item ----

  lemma DecodeStep(e: string)
    requires e != "" && e[0] != '&'
    ensures Decode(e) == [e[0]] + Decode(e[1..])
  {
    NoEntityHere(e);
  }

  lemma {:induction false} DecodeSkips(x: string, rest: string)
    requires NoAmp(x)
    ensures Decode(x + rest) == x + Decode(rest)
  {
    if x == "" {
      assert x + rest == rest;
    } else {
      DropConcat(x, rest);
      DecodeStep(x + rest);
      DecodeSkips(x[1..], rest);
      DropConcat(x, Decode(rest));
    }
  }

  lemma DecodeEntity(x: string, rest: string)
    requires x in {AMP, LT, GT}
    ensures Decode(x + rest) == (if x == AMP then "&" else if x == LT then "<" else ">") + Decode(rest)
  {
    EntityShape(x, rest);
    assert (x + rest)[|x|..] == rest;
  }

  /** An item is read back as it stood in the message, except for an ampersand in a link. */
  lemma DecodeItem(item: Item, place: Place, rest: string)
    requires Proper(item) && place != InMessage && !(item == Amp && place == InLink)
    ensures Decode(Show(item, place) + rest) == Source(item) + Decode(rest)
  {
    match item {
      case Plain(c) => DecodeSkips([c], rest);
      case Ref(id, name) =>
        RefHasNoSpace(id, name);
        DecodeSkips(RefText(id, name), rest);
      case _ => DecodeEntity(Show(item, place), rest);
    }
  }

  // ---- decoding a link ----

  lemma PrefixBehind(c: char, p: string, rest: string)
    ensures [c] + p <= [c] + rest <==> p <= rest
  {
    assert ([c] + p)[1..] == p && ([c] + rest)[1..] == rest;
    if p <= rest {
      assert rest == p + rest[|p|..];
    }
  }

  lemma EntityBehind(rest: string)
    ensures LT <= "&" + rest <==> "lt;" <= rest
    ensures GT <= "&" + rest <==> "gt;" <= rest
    ensures AMP <= "&" + rest <==> "amp;" <= rest
  {
    PrefixBehind('&', "lt;", rest);
    PrefixBehind('&', "gt;", rest);
    PrefixBehind('&', "amp;", rest);
    assert LT == ['&'] + "lt;" && GT == ['&'] + "gt;" && AMP == ['&'] + "amp;";
  }

  lemma DecodeBareAmp(rest: string)
    requires !("lt;" <= rest) && !("gt;" <= rest) && !("amp;" <= rest)
    ensures Decode("&" + rest) == "&" + Decode(rest)
  {
    EntityBehind(rest);
    assert ("&" + rest)[1..] == rest;
  }

  /** An ampersand that becomes part of an entity is read together with what follows. */
  lemma DecodeFalseEntity(w: string, rest: string)
    requires w in {"lt;", "gt;", "amp;"}
    ensures |Decode("&" + (w + rest))| == 1 + |Decode(rest)|
  {
    Associate("&", w, rest);
    assert w == "lt;" ==> "&" + w == LT;
    assert w == "gt;" ==> "&" + w == GT;
    assert w == "amp;" ==> "&" + w == AMP;
    DecodeEntity("&" + w, rest);
  }

  /** Reading back never makes a text longer, and keeps its length exactly if it is read back as it was. */
  ghost predicate ReadBack(got: string, want: string, exactly: bool) {
    |got| <= |want| && (exactly ==> got == want) && (!exactly ==> |got| < |want|)
  }

  lemma ReadBackCons(x: string, got: string, want: string, exactly: bool)
    requires ReadBack(got, want, exactly)
    ensures ReadBack(x + got, x + want, exactly)
  {
  }

  lemma {:induction false} DecodeGroup(items: seq<Item>, tail: string)
    requires AllProper(items) && tail != "" && tail[0] == '>'
    ensures ReadBack(Decode(Flat(items, InLink) + tail), Flat(items, InMessage) + Decode(tail), SafeGroup(items))
    decreases |items|
  {
    if items == [] {
      assert Flat(items, InLink) + tail == tail && Flat(items, InMessage) + Decode(tail) == Decode(tail);
    } else {
      var rest := Flat(items[1..], InLink) + tail;
      Associate(Show(items[0], InLink), Flat(items[1..], InLink), tail);
      Associate(Source(items[0]), Flat(items[1..], InMessage), Decode(tail));
      if items[0] != Amp {
        DecodeItem(items[0], InLink, rest);
        DecodeGroup(items[1..], tail);
        ReadBackCons(Source(items[0]), Decode(rest), Flat(items[1..], InMessage) + Decode(tail), SafeGroup(items));
      } else {
        SpellsPrefix(items[1..], "lt;", InLink, tail);
        SpellsPrefix(items[1..], "gt;", InLink, tail);
        SpellsPrefix(items[1..], "amp;", InLink, tail);
        if !SpellsEntity(items[1..]) {
          DecodeBareAmp(rest);
          DecodeGroup(items[1..], tail);
          ReadBackCons("&", Decode(rest), Flat(items[1..], InMessage) + Decode(tail), SafeGroup(items));
        } else {
          var w := if Spells(items[1..], "lt;") then "lt;" else if Spells(items[1..], "gt;") then "gt;" else "amp;";
          DecodeGroup(items[1..][|w|..], tail);
          FalseEntity(items[1..], w, tail);
        }
      }
    }
  }

  lemma FalseEntity(items: seq<Item>, w: string, tail: string)
    requires w in {"lt;", "gt;", "amp;"} && Spells(items, w)
    requires |Decode(Flat(items[|w|..], InLink) + tail)| <= |Flat(items[|w|..], InMessage) + Decode(tail)|
    ensures |Decode("&" + (Flat(items, InLink) + tail))| < |"&" + (Flat(items, InMessage) + Decode(tail))|
  {
    SpelledFlat(items, w, InLink);
    SpelledFlat(items, w, InMessage);
    Associate(w, Flat(items[|w|..], InLink), tail);
    DecodeFalseEntity(w, Flat(items[|w|..], InLink) + tail);
  }

  // ---- decoding the whole message ----

  lemma {:induction false} ReadBackJoin(a: string, got: string, want: string, first: bool, second: bool, all: string)
    requires ReadBack(got, want, second) && ReadBack(all, a + (">" + got), first)
    ensures ReadBack(all, a + (">" + want), first && second)
  {
  }

  lemma DecodeLink(items: seq<Item>, k: nat, rest: string, exactly: bool)
    requires AllProper(items) && LinkItems(items) == Some(k)
    requires ReadBack(Decode(rest), Flat(items[k + 2..], InMessage), exactly)
    ensures ReadBack(Decode("<" + (Flat(items[1..1 + k], InLink) + (">" + rest))), Flat(items, InMessage),
                     SafeGroup(items[1..1 + k]) && exactly)
  {
    var group, tail := items[1..1 + k], ">" + rest;
    var inner := Flat(group, InLink) + tail;
    DecodeSkips("<", inner);
    DecodeSkips(">", rest);
    DecodeGroup(group, tail);
    BracketedFlat(items, k, InMessage);
    ReadBackJoin(Flat(group, InMessage), Decode(rest), Flat(items[k + 2..], InMessage), SafeGroup(group), exactly,
                 Decode(inner));
    ReadBackCons("<", Decode(inner), Flat(group, InMessage) + (">" + Flat(items[k + 2..], InMessage)),
                 SafeGroup(group) && exactly);
  }

  lemma {:induction false} DecodeLinkedText(items: seq<Item>)
    requires AllProper(items)
    ensures ReadBack(Decode(LinkedText(items)), Flat(items, InMessage), Lossless(items))
    decreases |items|
  {
    if items != [] {
      match LinkItems(items) {
        case Some(k) =>
          DecodeLinkedText(items[k + 2..]);
          DecodeLink(items, k, LinkedText(items[k + 2..]), Lossless(items[k + 2..]));
        case None =>
          DecodeLinkedText(items[1..]);
          DecodeItem(items[0], InEscaped, LinkedText(items[1..]));
          ReadBackCons(Source(items[0]), Decode(LinkedText(items[1..])), Flat(items[1..], InMessage), Lossless(items));
      }
    }
  }

  /**
   * Reading back an escaped message gives the message exactly if none of its links
   * holds an ampersand written in front of lt;, gt; or amp;. Otherwise something is lost.
   */
  lemma DecodeUndoesEscapeIff(s: string)
    ensures Decode(Escaped(s)) == s <==> Lossless(Lex(s))
    ensures !Lossless(Lex(s)) ==> |Decode(Escaped(s))| < |s|
  {
    EscapedShowsItems(s);
    LexIsFaithful(s);
    LexIsProper(s);
    DecodeLinkedText(Lex(s));
  }

  /** Two lossless messages that look the same escaped are the same. */
  lemma EscapeIsInjectiveOnLossless(s: string, t: string)
    requires Lossless(Lex(s)) && Lossless(Lex(t)) && Escaped(s) == Escaped(t)
    ensures s == t
  {
    DecodeUndoesEscapeIff(s);
    DecodeUndoesEscapeIff(t);
  }

  // ---- messages without a link, and a message that loses something ----

  lemma ContainsBehind(a: string, b: string, pat: string, i: nat)
    requires i <= |b| && OccursAt(b, i, pat)
    ensures Contains(a + b, pat)
  {
    assert (a + b)[|a| + i..|a| + i + |pat|] == b[i..i + |pat|];
    assert OccursAt(a + b, |a| + i, pat);
  }

  lemma NoLinkBehind(s: string, pat: string)
    requires s != "" && !Contains(s, pat)
    ensures !Contains(Behind(s), pat)
  {
    if i: nat :| i <= |Behind(s)| && OccursAt(Behind(s), i, pat) {
      ContainsBehind(Source(First(s)), Behind(s), pat, i);
    }
  }

  lemma SchemeInMessage(s: string, pat: string)
    requires s != "" && First(s) == Lt && AllPlain(pat) && Spells(Lex(Behind(s)), pat)
    ensures Contains(s, "<" + pat)
  {
    var rest := Behind(s);
    LexIsFaithful(rest);
    SpelledFlat(Lex(rest), pat, InMessage);
    Associate("<", pat, rest[|pat|..]);
    assert OccursAt(s, 0, "<" + pat);
  }

  lemma InsideSpells(items: seq<Item>) returns (h: string)
    requires InsideItems(items).Some?
    ensures IsScheme(h) && AllPlain(h) && Spells(items, h)
  {
    h := if Spells(items, "http://") then "http://" else "https://";
  }

  lemma LinkOpensWithLt(s: string)
    requires s != "" && LinkItems(Lex(s)).Some?
    ensures First(s) == Lt && InsideItems(Lex(Behind(s))).Some?
  {
    assert Lex(s)[1..] == Lex(Behind(s));
  }

  lemma LinkOpens(s: string) returns (h: string)
    requires s != "" && LinkItems(Lex(s)).Some?
    ensures IsScheme(h) && Contains(s, "<" + h)
  {
    LinkOpensWithLt(s);
    h := InsideSpells(Lex(Behind(s)));
    SchemeInMessage(s, h);
  }

  /** Neither <http:// nor <https:// occurs in the message. */
  ghost predicate OpensNoLink(s: string) {
    forall h :: IsScheme(h) ==> !Contains(s, "<" + h)
  }

  lemma OpensNoLinkBehind(s: string)
    requires s != "" && OpensNoLink(s)
    ensures OpensNoLink(Behind(s)) && LinkItems(Lex(s)) == None
  {
    forall h | IsScheme(h)
      ensures !Contains(Behind(s), "<" + h)
    {
      NoLinkBehind(s, "<" + h);
    }
    if LinkItems(Lex(s)).Some? {
      var h := LinkOpens(s);
    }
  }

  /** A message that opens no link loses nothing. */
  lemma {:induction false} NoLinkIsLossless(s: string)
    requires OpensNoLink(s)
    ensures Lossless(Lex(s))
    decreases |s|
  {
    if s != "" {
      OpensNoLinkBehind(s);
      NoLinkIsLossless(Behind(s));
      assert Lex(s)[1..] == Lex(Behind(s));
    }
  }

  /** Every message without a link is read back as it was, so no two of them look the same escaped. */
  lemma DecodeUndoesEscapeWithoutLinks(s: string)
    requires OpensNoLink(s)
    ensures Decode(Escaped(s)) == s
  {
    NoLinkIsLossless(s);
    DecodeUndoesEscapeIff(s);
  }

  lemma LexOfGt()
    ensures Lex(">") == [Gt] + []
  {
    LexOfChar('>', "");
    assert ['>'] + "" == ">";
  }

  lemma LexOfEntity(w: string)
    requires AllPlain(w)
    ensures Lex(['&'] + (w + ">")) == ([Amp] + Plains(w)) + ([Gt] + [])
  {
    LexOfGt();
    LexOfPlains(w, ">");
    LexOfChar('&', w + ">");
  }

  lemma LexOfLt()
    ensures Lex("<>") == [Lt] + ([Gt] + [])
  {
    LexOfGt();
    LexOfBracket(">");
    assert ['<'] + ">" == "<>";
  }

  lemma SameInLink(w: string)
    requires ['&'] + w == LT
    ensures Flat([Amp] + Plains(w), InLink) == Flat([Lt], InLink)
  {
    FlatCons(Amp, Plains(w), InLink);
    FlatPlains(w, InLink);
    FlatCons(Lt, [], InLink);
    assert [Lt] + [] == [Lt] && LT + "" == LT;
  }

  /** A link to a bracket, and a link to that bracket written as an entity. */
  lemma LinksCollide(h: string, w: string)
    requires IsScheme(h) && ['&'] + w == LT && |w| == 3 && AllPlain(w) && NoSpace(w)
    ensures Escaped(['<'] + (h + "<>")) == Escaped(['<'] + (h + (['&'] + (w + ">"))))
  {
    var inside := [Amp] + Plains(w);
    PlainsAt(w);
    LexOfLt();
    LexOfEntity(w);
    EscapedLink(h, "<>", [Lt], []);
    EscapedLink(h, ['&'] + (w + ">"), inside, []);
    SameInLink(w);
  }

  lemma LiteralLinks()
    ensures ['<'] + ("http://" + "<>") == "<http://<>"
    ensures ['<'] + ("http://" + (['&'] + ("lt;" + ">"))) == "<http://&lt;>"
    ensures ['&'] + "lt;" == LT && AllPlain("lt;") && NoSpace("lt;")
  {
  }

  /** Two different messages that look the same escaped: escaping is not injective once links are restored. */
  lemma LinksCanCollide()
    ensures "<http://<>" != "<http://&lt;>" && Escaped("<http://<>") == Escaped("<http://&lt;>")
  {
    LiteralLinks();
    LinksCollide("http://", "lt;");
  }
}
