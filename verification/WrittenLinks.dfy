/** Plain text and links as they are written in a message, item by item. */
module WrittenLinks {
  import opened Text
  import opened Escape
  import opened EscapeLaws
  import opened LinkLaws
  import References

  // ---- plain text ----

  function Plains(p: string): seq<Item> {
    if p == "" then [] else [Plain(p[0])] + Plains(p[1..])
  }

  lemma {:induction false} PlainsAt(p: string)
    ensures |Plains(p)| == |p| && forall i :: 0 <= i < |p| ==> Plains(p)[i] == Plain(p[i])
  {
    if p != "" {
      PlainsAt(p[1..]);
    }
  }

  lemma {:induction false} FlatPlains(p: string, place: Place)
    ensures Flat(Plains(p), place) == p
  {
    if p != "" {
      FlatPlains(p[1..], place);
      FlatCons(Plain(p[0]), Plains(p[1..]), place);
    }
  }

  lemma FlatAppend(a: seq<Item>, b: seq<Item>, place: Place)
    ensures Flat(a + b, place) == Flat(a, place) + Flat(b, place)
  {
    FlatCut(a + b, |a|, place);
    assert (a + b)[..|a|] == a && (a + b)[|a|..] == b;
  }

  lemma {:induction false} LexOfPlains(p: string, rest: string)
    requires AllPlain(p)
    ensures Lex(p + rest) == Plains(p) + Lex(rest)
  {
    if p == "" {
      assert p + rest == rest;
    } else {
      DropConcat(p, rest);
      LexOfPlains(p[1..], rest);
      assert Behind(p + rest) == p[1..] + rest;
    }
  }

  lemma LexOfChar(c: char, rest: string)
    requires c != '<'
    ensures Lex([c] + rest) == [if c == '>' then Gt else if c == '&' then Amp else Plain(c)] + Lex(rest)
  {
    assert Behind([c] + rest) == rest;
  }

  lemma LexOfBracket(rest: string)
    requires rest != "" && rest[0] != '@'
    ensures Lex(['<'] + rest) == [Lt] + Lex(rest)
  {
    var s := ['<'] + rest;
    assert s[1] == rest[0];
    assert References.MatchEscapedUser(s) == None;
    assert Behind(s) == rest;
  }

  lemma LexOfOpening(p: string, rest: string)
    requires AllPlain(p) && p != "" && p[0] != '@'
    ensures Lex(['<'] + (p + rest)) == [Lt] + (Plains(p) + Lex(rest))
  {
    assert (p + rest)[0] == p[0];
    LexOfBracket(p + rest);
    LexOfPlains(p, rest);
  }

  // ---- a link ----

  predicate IsScheme(h: string) { h == "http://" || h == "https://" }

  lemma {:induction false} SpellsPlains(p: string, rest: seq<Item>)
    ensures Spells(Plains(p) + rest, p) && |Plains(p)| == |p|
  {
    if p != "" {
      assert (Plains(p) + rest)[1..] == Plains(p[1..]) + rest;
      SpellsPlains(p[1..], rest);
    }
  }

  lemma {:induction false} SpelledAt(items: seq<Item>, p: string, i: nat)
    requires Spells(items, p) && i < |p|
    ensures items[i] == Plain(p[i])
  {
    if i > 0 {
      SpelledAt(items[1..], p[1..], i - 1);
    }
  }

  lemma SchemeOfPlains(h: string, rest: seq<Item>)
    requires IsScheme(h)
    ensures SchemeItems(Plains(h) + rest) == |h| == |Plains(h)|
  {
    var items := Plains(h) + rest;
    SpellsPlains(h, rest);
    SpelledAt(items, h, 4);
    if Spells(items, "http://") {
      SpelledAt(items, "http://", 4);
    }
  }

  /** Items that can stand in a link, up to its closing bracket. */
  predicate CanBeLinked(inside: seq<Item>) {
    forall i :: 0 <= i < |inside| ==> inside[i] != Gt && !IsBlank(inside[i])
  }

  lemma {:induction false} CloseItemsBehind(inside: seq<Item>, rest: seq<Item>, some: bool)
    requires (some ==> inside != []) && CanBeLinked(inside)
    ensures CloseItems(inside + ([Gt] + rest), some) == Some(|inside|)
  {
    if inside != [] {
      assert (inside + ([Gt] + rest))[1..] == inside[1..] + ([Gt] + rest);
      CloseItemsBehind(inside[1..], rest, false);
    }
  }

  function LinkTo(h: string, inside: seq<Item>, rest: seq<Item>): seq<Item> {
    [Lt] + (Plains(h) + (inside + ([Gt] + rest)))
  }

  lemma LinkToIsLink(h: string, inside: seq<Item>, rest: seq<Item>)
    requires IsScheme(h) && inside != [] && CanBeLinked(inside)
    ensures LinkItems(LinkTo(h, inside, rest)) == Some(|Plains(h)| + |inside|)
  {
    var behind := inside + ([Gt] + rest);
    var tail := Plains(h) + behind;
    SchemeOfPlains(h, behind);
    assert LinkTo(h, inside, rest)[1..] == tail && tail[|h|..] == behind;
    InsideItemsParts(tail, |h|);
    CloseItemsBehind(inside, rest, true);
  }

  lemma LinkToParts(h: string, inside: seq<Item>, rest: seq<Item>)
    ensures var items, k := LinkTo(h, inside, rest), |Plains(h)| + |inside|;
      |items| == k + 2 + |rest| && items[1..1 + k] == Plains(h) + inside && items[k + 2..] == rest
  {
  }

  lemma LinkedTextStep(items: seq<Item>, k: nat, group: seq<Item>, rest: seq<Item>)
    requires LinkItems(items) == Some(k) && items[1..1 + k] == group && items[k + 2..] == rest
    ensures LinkedText(items) == "<" + (Flat(group, InLink) + (">" + LinkedText(rest)))
  {
  }

  lemma GroupText(h: string, inside: seq<Item>)
    ensures Flat(Plains(h) + inside, InLink) == h + Flat(inside, InLink)
  {
    FlatAppend(Plains(h), inside, InLink);
    FlatPlains(h, InLink);
  }

  lemma LinkedTextOfLink(h: string, inside: seq<Item>, rest: seq<Item>)
    requires IsScheme(h) && inside != [] && CanBeLinked(inside)
    ensures LinkedText(LinkTo(h, inside, rest)) == "<" + ((h + Flat(inside, InLink)) + (">" + LinkedText(rest)))
  {
    LinkToIsLink(h, inside, rest);
    LinkToParts(h, inside, rest);
    LinkedTextStep(LinkTo(h, inside, rest), |Plains(h)| + |inside|, Plains(h) + inside, rest);
    GroupText(h, inside);
  }

  lemma LexOfLink(h: string, text: string, inside: seq<Item>, rest: seq<Item>)
    requires IsScheme(h) && Lex(text) == inside + ([Gt] + rest)
    ensures Lex(['<'] + (h + text)) == LinkTo(h, inside, rest)
  {
    LexOfOpening(h, text);
  }

  /** A link and what follows it, escaped. */
  lemma EscapedLink(h: string, text: string, inside: seq<Item>, rest: seq<Item>)
    requires IsScheme(h) && Lex(text) == inside + ([Gt] + rest) && inside != [] && CanBeLinked(inside)
    ensures Escaped(['<'] + (h + text)) == "<" + ((h + Flat(inside, InLink)) + (">" + LinkedText(rest)))
  {
    LexOfLink(h, text, inside, rest);
    LinkedTextOfLink(h, inside, rest);
    EscapedShowsItems(['<'] + (h + text));
  }

  lemma LinkedTextOfPlain(c: char, items: seq<Item>)
    ensures LinkedText([Plain(c)] + items) == [c] + LinkedText(items)
  {
    assert ([Plain(c)] + items)[1..] == items;
  }

  lemma PlainsCons(p: string, items: seq<Item>)
    requires p != ""
    ensures Plains(p) + items == [Plain(p[0])] + (Plains(p[1..]) + items)
  {
  }

  lemma {:induction false} LinkedTextOfPlains(p: string, items: seq<Item>)
    ensures LinkedText(Plains(p) + items) == p + LinkedText(items)
  {
    if p == "" {
      assert Plains(p) + items == items;
    } else {
      PlainsCons(p, items);
      LinkedTextOfPlains(p[1..], items);
      LinkedTextOfPlain(p[0], Plains(p[1..]) + items);
      DropConcat(p, LinkedText(items));
    }
  }

  /** Plain text is left as it is, whatever follows it. */
  lemma EscapedPlain(p: string, rest: string)
    requires AllPlain(p)
    ensures Escaped(p + rest) == p + Escaped(rest)
  {
    LexOfPlains(p, rest);
    LinkedTextOfPlains(p, Lex(rest));
    EscapedShowsItems(p + rest);
    EscapedShowsItems(rest);
  }

  /** So is a link in brackets whose inside is plain text. */
  lemma EscapedPlainLink(h: string, v: string, rest: string)
    requires IsScheme(h) && v != "" && AllPlain(v) && NoSpace(v)
    ensures Escaped("<" + ((h + v) + (">" + rest))) == "<" + ((h + v) + (">" + Escaped(rest)))
  {
    var text := v + (['>'] + rest);
    LexOfPlains(v, ['>'] + rest);
    LexOfChar('>', rest);
    PlainsAt(v);
    EscapedLink(h, text, Plains(v), Lex(rest));
    FlatPlains(v, InLink);
    EscapedShowsItems(rest);
    Associate(h, v, ['>'] + rest);
  }
}
