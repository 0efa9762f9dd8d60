/** slack/util.go on messages as they are written: what comes out, character by character. */
module EscapedTexts {
  import opened Text
  import opened CharClasses
  import opened Escape
  import opened EscapeLaws
  import opened LinkLaws
  import opened WrittenLinks
  import ReferenceLaws

  /** No character that is escaped. */
  predicate NoSpecial(s: string) {
    forall i :: 0 <= i < |s| ==> s[i] != '&' && s[i] != '<' && s[i] != '>'
  }

  lemma Regroup(a: string, b: string, c: string, d: string, e: string, f: string)
    ensures a + b + c + d + e + f == a + (b + (c + (d + (e + f))))
  {
  }

  // ---- links that are restored ----

  /** What may stand between the scheme of a link and its closing bracket. */
  predicate IsTarget(v: string) {
    forall i :: 0 <= i < |v| ==> v[i] != '<' && v[i] != '>' && v[i] !in REGEXP_WHITE
  }

  function ItemsOf(v: string): seq<Item> {
    if v == "" then [] else [if v[0] == '&' then Amp else Plain(v[0])] + ItemsOf(v[1..])
  }

  lemma {:induction false} TargetCanBeLinked(v: string)
    requires IsTarget(v)
    ensures CanBeLinked(ItemsOf(v)) && (v != "" ==> ItemsOf(v) != [])
  {
    if v != "" {
      RegexpSpaceIsWhite(v[0]);
      TargetCanBeLinked(v[1..]);
    }
  }

  lemma ItemsCons(v: string, items: seq<Item>)
    requires v != ""
    ensures ItemsOf(v) + items == [if v[0] == '&' then Amp else Plain(v[0])] + (ItemsOf(v[1..]) + items)
  {
  }

  lemma {:induction false} LexOfTarget(v: string, text: string)
    requires forall i :: 0 <= i < |v| ==> v[i] != '<' && v[i] != '>'
    ensures Lex(v + text) == ItemsOf(v) + Lex(text)
  {
    if v == "" {
      assert v + text == text;
    } else {
      assert v + text == [v[0]] + (v[1..] + text);
      LexOfChar(v[0], v[1..] + text);
      LexOfTarget(v[1..], text);
      ItemsCons(v, Lex(text));
    }
  }

  lemma {:induction false} TargetInLink(v: string)
    ensures Flat(ItemsOf(v), InLink) == v
  {
    if v != "" {
      TargetInLink(v[1..]);
      FlatCons(if v[0] == '&' then Amp else Plain(v[0]), ItemsOf(v[1..]), InLink);
    }
  }

  lemma LinkRestored(h: string, v: string, rest: string)
    requires (h == "http://" || h == "https://") && v != "" && IsTarget(v)
    ensures Escaped("<" + (h + (v + (">" + rest)))) == "<" + (h + (v + (">" + Escaped(rest))))
  {
    var text := v + (">" + rest);
    LexOfTarget(v, ">" + rest);
    LexOfChar('>', rest);
    TargetCanBeLinked(v);
    EscapedLink(h, text, ItemsOf(v), Lex(rest));
    TargetInLink(v);
    EscapedShowsItems(rest);
    Associate(h, v, ">" + Escaped(rest));
  }

  /** A link is left as it is, with every ampersand in it, whatever stands before and behind it. */
  lemma LinkIsKept(p: string, h: string, v: string, rest: string)
    requires NoSpecial(p) && (h == "http://" || h == "https://") && v != ""
    requires forall i :: 0 <= i < |v| ==> v[i] != '<' && v[i] != '>' && v[i] !in REGEXP_WHITE
    ensures Escaped(p + "<" + h + v + ">" + rest) == p + "<" + h + v + ">" + Escaped(rest)
  {
    Regroup(p, "<", h, v, ">", rest);
    Regroup(p, "<", h, v, ">", Escaped(rest));
    EscapedPlain(p, "<" + (h + (v + (">" + rest))));
    LinkRestored(h, v, rest);
  }

  // ---- links that are not ----

  lemma {:induction false} CloseBlocked(v: string, k: nat, behind: seq<Item>, some: bool)
    requires NoSpecial(v) && k < |v| && IsRegexpSpace(v[k])
    ensures CloseItems(Plains(v) + behind, some) == None
  {
    var items := Plains(v) + behind;
    assert items[0] == Plain(v[0]) && items[1..] == Plains(v[1..]) + behind;
    if k > 0 && !IsRegexpSpace(v[0]) {
      CloseBlocked(v[1..], k - 1, behind, false);
    }
  }

  lemma NoLinkWithSpace(h: string, v: string, k: nat, behind: seq<Item>)
    requires IsScheme(h) && NoSpecial(v) && k < |v| && IsRegexpSpace(v[k])
    ensures LinkItems([Lt] + (Plains(h) + (Plains(v) + behind))) == None
  {
    var tail := Plains(h) + (Plains(v) + behind);
    SchemeOfPlains(h, Plains(v) + behind);
    CloseBlocked(v, k, behind, true);
    assert ([Lt] + tail)[1..] == tail && tail[|h|..] == Plains(v) + behind;
    InsideItemsParts(tail, |h|);
  }

  lemma LinkedTextOfSpecial(item: Item, items: seq<Item>)
    requires LinkItems([item] + items) == None
    ensures LinkedText([item] + items) == Show(item, InEscaped) + LinkedText(items)
  {
    assert ([item] + items)[1..] == items;
  }

  lemma BrokenItems(h: string, v: string, k: nat, rest: seq<Item>)
    requires IsScheme(h) && NoSpecial(v) && k < |v| && IsRegexpSpace(v[k])
    ensures LinkedText([Lt] + (Plains(h) + (Plains(v) + ([Gt] + rest)))) ==
      "&lt;" + (h + (v + ("&gt;" + LinkedText(rest))))
  {
    NoLinkWithSpace(h, v, k, [Gt] + rest);
    LinkedTextOfSpecial(Lt, Plains(h) + (Plains(v) + ([Gt] + rest)));
    LinkedTextOfPlains(h, Plains(v) + ([Gt] + rest));
    LinkedTextOfPlains(v, [Gt] + rest);
    LinkedTextOfSpecial(Gt, rest);
  }

  lemma BrokenLinkEscaped(h: string, v: string, k: nat, rest: string)
    requires (h == "http://" || h == "https://") && NoSpecial(v) && k < |v| && v[k] in REGEXP_WHITE
    ensures Escaped("<" + (h + (v + (">" + rest)))) == "&lt;" + (h + (v + ("&gt;" + Escaped(rest))))
  {
    RegexpSpaceIsWhite(v[k]);
    LexOfOpening(h, v + (">" + rest));
    LexOfPlains(v, ">" + rest);
    LexOfChar('>', rest);
    BrokenItems(h, v, k, Lex(rest));
    EscapedShowsItems("<" + (h + (v + (">" + rest))));
    EscapedShowsItems(rest);
  }

  /** With white space in it, it is no link, and its brackets are escaped. */
  lemma BrokenLinkIsEscaped(p: string, h: string, v: string, rest: string)
    requires NoSpecial(p) && (h == "http://" || h == "https://") && NoSpecial(v)
    requires exists i :: 0 <= i < |v| && v[i] in REGEXP_WHITE
    ensures Escaped(p + "<" + h + v + ">" + rest) == p + "&lt;" + h + v + "&gt;" + Escaped(rest)
  {
    var k :| 0 <= k < |v| && v[k] in REGEXP_WHITE;
    Regroup(p, "<", h, v, ">", rest);
    Regroup(p, "&lt;", h, v, "&gt;", Escaped(rest));
    EscapedPlain(p, "<" + (h + (v + (">" + rest))));
    BrokenLinkEscaped(h, v, k, rest);
  }

  // ---- user references, and everything else ----

  lemma LexOfReference(id: string, name: string, rest: string)
    requires AllIn(id, IsIDChar) && AllIn(name, IsNameChar)
    ensures Lex(RefText(id, name) + rest) == [Ref(id, name)] + Lex(rest)
  {
    var s := RefText(id, name) + rest;
    ReferenceLaws.ReferenceMatches(id, name, rest);
    assert First(s) == Ref(id, name);
    assert s[|RefText(id, name)|..] == rest;
  }

  lemma ReferenceText(id: string, name: string, rest: string)
    ensures "<@" + id + "|" + name + ">" + rest == RefText(id, name) + rest
  {
    assert "<@" + id + "|" + name + ">" == "<@" + (id + ("|" + (name + ">")));
  }

  /** A user reference is left as it is. */
  lemma ReferenceIsKept(id: string, name: string, rest: string)
    requires IsId(id) && IsName(name)
    ensures Escaped("<@" + id + "|" + name + ">" + rest) == "<@" + id + "|" + name + ">" + Escaped(rest)
  {
    IdsAre(id);
    NamesAre(name);
    ReferenceText(id, name, rest);
    ReferenceText(id, name, Escaped(rest));
    LexOfReference(id, name, rest);
    LinkedTextOfSpecial(Ref(id, name), Lex(rest));
    EscapedShowsItems(RefText(id, name) + rest);
    EscapedShowsItems(rest);
  }

  /** Outside of links and references, a text is escaped character by character. */
  lemma CharIsEscaped(c: char, rest: string)
    requires c != '<'
    ensures Escaped([c] + rest) == (if c == '&' then "&amp;" else if c == '>' then "&gt;" else [c]) + Escaped(rest)
  {
    var item := if c == '>' then Gt else if c == '&' then Amp else Plain(c);
    LexOfChar(c, rest);
    LinkedTextOfSpecial(item, Lex(rest));
    EscapedShowsItems([c] + rest);
    EscapedShowsItems(rest);
  }

  /** No user reference, and no link, begins with the bracket before the text. */
  ghost predicate OpensNothing(rest: string) {
    && !("http://" <= rest) && !("https://" <= rest)
    && forall id, name :: IsId(id) && IsName(name) ==> !("@" + id + "|" + name + ">" <= rest)
  }

  lemma ReferenceOpens(rest: string, id: string, name: string)
    requires RefText(id, name) <= "<" + rest
    ensures "@" + id + "|" + name + ">" <= rest
  {
    var s, t := "<" + rest, "@" + id + "|" + name + ">";
    assert RefText(id, name) == "<" + t;
    assert s[1..] == rest && s[1..|t| + 1] == t;
  }

  lemma NotAReference(rest: string)
    requires OpensNothing(rest)
    ensures !First("<" + rest).Ref?
  {
    var item := First("<" + rest);
    if item.Ref? {
      FirstIsThere("<" + rest);
      IdsAre(item.id);
      NamesAre(item.name);
      ReferenceOpens(rest, item.id, item.name);
    }
  }

  lemma LexOfLoneBracket(rest: string)
    requires OpensNothing(rest)
    ensures Lex("<" + rest) == [Lt] + Lex(rest)
  {
    NotAReference(rest);
    assert Behind("<" + rest) == rest;
  }

  lemma LoneBracketIsNoLink(rest: string)
    requires OpensNothing(rest)
    ensures LinkItems([Lt] + Lex(rest)) == None
  {
    var items := Lex(rest);
    assert ([Lt] + items)[1..] == items;
    LexIsFaithful(rest);
    if Spells(items, "http://") {
      SpelledFlat(items, "http://", InMessage);
    }
    if Spells(items, "https://") {
      SpelledFlat(items, "https://", InMessage);
    }
  }

  lemma LoneBracketIsEscaped(rest: string)
    requires OpensNothing(rest)
    ensures Escaped("<" + rest) == "&lt;" + Escaped(rest)
  {
    LexOfLoneBracket(rest);
    LoneBracketIsNoLink(rest);
    LinkedTextOfSpecial(Lt, Lex(rest));
    EscapedShowsItems("<" + rest);
    EscapedShowsItems(rest);
  }
}
