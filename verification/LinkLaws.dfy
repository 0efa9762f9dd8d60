/** Restored links, and what escaping loses in them. */
module LinkLaws {
  import opened Text
  import opened Escape
  import opened EscapeLaws

  // ---- links item by item ----

  /** The items start with the plain characters of p. */
  predicate Spells(items: seq<Item>, p: string)
    ensures Spells(items, p) ==> |p| <= |items|
  {
    p == "" || (items != [] && items[0] == Plain(p[0]) && Spells(items[1..], p[1..]))
  }

  predicate AllPlain(s: string) {
    forall i :: 0 <= i < |s| ==> IsPlain(s[i])
  }

  predicate IsBlank(item: Item) {
    item.Plain? && IsRegexpSpace(item.c)
  }

  /** The number of items before the first closing bracket, none of them blank; with `some`, at least one. */
  function CloseItems(items: seq<Item>, some: bool): (n: Option<nat>)
    ensures n.Some? ==> n.value < |items| && items[n.value] == Gt && (some ==> n.value > 0)
  {
    if items == [] then None
    else if !some && items[0] == Gt then Some(0)
    else if IsBlank(items[0]) then None
    else
      match CloseItems(items[1..], false)
      case Some(n) => Some(1 + n)
      case None => None
  }

  function SchemeItems(items: seq<Item>): (p: nat)
    ensures p <= |items|
  {
    if Spells(items, "http://") then 7 else if Spells(items, "https://") then 8 else 0
  }

  /** If the items start with a scheme, the number of items before the closing bracket behind it. */
  function InsideItems(items: seq<Item>): (k: Option<nat>)
    ensures k.Some? ==> 0 < k.value < |items| && items[k.value] == Gt
  {
    var p := SchemeItems(items);
    if p == 0 then None
    else
      match CloseItems(items[p..], true)
      case Some(n) => Some(p + n)
      case None => None
  }

  /** If the items start with a link in brackets, the number of items between the brackets. */
  function LinkItems(items: seq<Item>): (k: Option<nat>)
    ensures k.Some? ==> k.value > 0 && k.value + 2 <= |items| && items[0] == Lt && items[1 + k.value] == Gt
  {
    if items == [] || items[0] != Lt then None else InsideItems(items[1..])
  }

  /** The escaped message once its links are restored. */
  function LinkedText(items: seq<Item>): string
    decreases |items|
  {
    if items == [] then ""
    else
      match LinkItems(items)
      case Some(k) => "<" + (Flat(items[1..1 + k], InLink) + (">" + LinkedText(items[k + 2..])))
      case None => Show(items[0], InEscaped) + LinkedText(items[1..])
  }

  // ---- finding the scheme ----

  lemma HeadOfFlat(items: seq<Item>, place: Place, tail: string)
    requires items != [] && Proper(items[0])
    ensures var x := Show(items[0], place);
      && x != "" && (items[0].Plain? ==> x == [items[0].c] && IsPlain(x[0])) && (!items[0].Plain? ==> !IsPlain(x[0]))
      && Flat(items, place) + tail == x + (Flat(items[1..], place) + tail)
  {
    Associate(Show(items[0], place), Flat(items[1..], place), tail);
  }

  lemma PrefixCons(p: string, t: string)
    requires p != "" && t != ""
    ensures p <= t <==> p[0] == t[0] && p[1..] <= t[1..]
  {
    assert p == [p[0]] + p[1..] && t == [t[0]] + t[1..];
  }

  /** A plain text stands at the front exactly if the items spell it. */
  lemma {:induction false} SpellsPrefix(items: seq<Item>, p: string, place: Place, tail: string)
    requires AllPlain(p) && AllProper(items) && (tail == "" || !IsPlain(tail[0]))
    ensures p <= Flat(items, place) + tail <==> Spells(items, p)
  {
    var t := Flat(items, place) + tail;
    if p != "" {
      if items == [] {
        assert t == tail;
      } else {
        var u := Flat(items[1..], place) + tail;
        HeadOfFlat(items, place, tail);
        DropConcat(Show(items[0], place), u);
        PrefixCons(p, t);
        if items[0] == Plain(p[0]) {
          assert t[1..] == u;
          SpellsPrefix(items[1..], p[1..], place, tail);
        }
      }
    }
  }

  lemma {:induction false} SpelledFlat(items: seq<Item>, p: string, place: Place)
    requires Spells(items, p)
    ensures Flat(items, place) == p + Flat(items[|p|..], place)
  {
    if p != "" {
      var u := Flat(items[|p|..], place);
      SpelledFlat(items[1..], p[1..], place);
      assert items[1..][|p| - 1..] == items[|p|..];
      Associate([p[0]], p[1..], u);
      CutAt(p, 1);
    }
  }

  lemma SchemeOfFlat(items: seq<Item>)
    requires AllProper(items)
    ensures Scheme(Flat(items, InEscaped)) == SchemeItems(items)
    ensures SchemeItems(items) > 0 ==>
      Flat(items, InEscaped)[SchemeItems(items)..] == Flat(items[SchemeItems(items)..], InEscaped)
  {
    assert Flat(items, InEscaped) + "" == Flat(items, InEscaped);
    SpellsPrefix(items, "http://", InEscaped, "");
    SpellsPrefix(items, "https://", InEscaped, "");
    if Spells(items, "http://") {
      SpelledFlat(items, "http://", InEscaped);
    } else if Spells(items, "https://") {
      SpelledFlat(items, "https://", InEscaped);
    }
  }

  // ---- finding the end ----

  predicate NoSpace(s: string) {
    forall i :: 0 <= i < |s| ==> !IsRegexpSpace(s[i])
  }

  function Shift(n: Option<nat>, k: nat): Option<nat> {
    if n.Some? then Some(n.value + k) else None
  }

  lemma CloseStep(e: string, some: bool)
    requires e != "" && (some || !(GT <= e)) && !IsRegexpSpace(e[0])
    ensures CloseAt(e, some) == Shift(CloseAt(e[1..], false), 1)
  {
  }

  lemma CloseStops(e: string, some: bool)
    requires e != "" && (some || !(GT <= e)) && IsRegexpSpace(e[0])
    ensures CloseAt(e, some) == None
  {
  }

  lemma NoGtHere(e: string)
    requires e != "" && e[0] != '&'
    ensures !(GT <= e)
  {
  }

  /** The search for the closing bracket passes over k characters that cannot begin it. */
  lemma {:induction false} CloseSkips(e: string, k: nat, some: bool)
    requires 0 < k <= |e| && (some || !(GT <= e))
    requires forall i :: 0 <= i < k ==> !IsRegexpSpace(e[i])
    requires forall i :: 1 <= i < k ==> e[i] != '&'
    ensures CloseAt(e, some) == Shift(CloseAt(e[k..], false), k)
  {
    var d := e[1..];
    CloseStep(e, some);
    if k > 1 {
      assert forall i :: 0 <= i < k - 1 ==> d[i] == e[i + 1];
      NoGtHere(d);
      CloseSkips(d, k - 1, false);
      assert d[k - 1..] == e[k..];
    }
  }

  lemma EntityShape(x: string, rest: string)
    requires x in {AMP, LT, GT}
    ensures NoAmp(x[1..]) && NoSpace(x)
    ensures (GT <= x + rest <==> x == GT) && (AMP <= x + rest <==> x == AMP) && (LT <= x + rest <==> x == LT)
  {
    var e := x + rest;
    assert e[..4] == x[..4] && e[1] == x[1];
    assert x == AMP ==> e[..5] == AMP;
    assert AMP[1] == 'a' && LT[1] == 'l' && GT[1] == 'g';
  }

  lemma NoEntityHere(e: string)
    requires e != "" && e[0] != '&'
    ensures !(GT <= e) && !(AMP <= e) && !(LT <= e)
  {
  }

  /** What an item looks like in the escaped message. */
  lemma EncodedShape(item: Item, rest: string)
    requires Proper(item)
    ensures var x := Show(item, InEscaped);
      && x != "" && NoAmp(x[1..]) && (NoSpace(x) <==> !IsBlank(item))
      && (GT <= x + rest <==> item == Gt) && (AMP <= x + rest <==> item == Amp) && (LT <= x + rest <==> item == Lt)
  {
    var x := Show(item, InEscaped);
    match item {
      case Ref(id, name) =>
        RefHasNoSpace(id, name);
        NoEntityHere(x + rest);
      case Plain(c) =>
        assert x[0] == c;
        NoEntityHere(x + rest);
      case _ =>
        EntityShape(x, rest);
    }
  }

  lemma RefHasNoSpace(id: string, name: string)
    requires AllIn(id, IsIDChar) && AllIn(name, IsNameChar)
    ensures NoSpace(RefText(id, name)) && NoAmp(RefText(id, name))
  {
  }

  // ---- the search and the items agree ----

  lemma {:induction false} FlatCut(items: seq<Item>, n: nat, place: Place)
    requires n <= |items|
    ensures Flat(items, place) == Flat(items[..n], place) + Flat(items[n..], place)
  {
    if n == 0 {
      assert items[0..] == items;
    } else {
      FlatCut(items[1..], n - 1, place);
      assert items[1..][n - 1..] == items[n..];
      FlatCons(items[0], items[1..][..n - 1], place);
      assert [items[0]] + items[1..][..n - 1] == items[..n];
      Associate(Show(items[0], place), Flat(items[1..][..n - 1], place), Flat(items[n..], place));
    }
  }

  lemma FlatLengths(items: seq<Item>, n: nat)
    requires n <= |items|
    ensures |Flat(items, InEscaped)| == |Flat(items[..n], InEscaped)| + |Flat(items[n..], InEscaped)|
  {
    FlatCut(items, n, InEscaped);
  }

  /** The number of characters the items show in the escaped message. */
  function Width(items: seq<Item>): nat { |Flat(items, InEscaped)| }

  /** Both searches find nothing, or what they find leaves the same text behind: n counts items, c characters. */
  predicate Agree(items: seq<Item>, n: Option<nat>, c: Option<nat>) {
    match n
    case None => c == None
    case Some(k) => c.Some? && k <= |items| && c.value + Width(items[k..]) == Width(items)
  }

  lemma DropDrop(items: seq<Item>, p: nat, k: nat)
    requires p + k <= |items|
    ensures items[p..][k..] == items[p + k..]
  {
  }

  /** Searches that agree behind some items agree with them in front. */
  lemma AgreeBehind(items: seq<Item>, p: nat, d: nat, n: Option<nat>, c: Option<nat>)
    requires p <= |items| && Width(items) == d + Width(items[p..])
    requires Agree(items[p..], n, c)
    ensures Agree(items, Shift(n, p), Shift(c, d))
  {
    if n.Some? {
      SumBehind(Width, items, items[p..], p, n.value, d, c.value);
    }
  }

  /** Whatever is measured, parts add up. */
  lemma SumBehind(w: seq<Item> -> nat, items: seq<Item>, tail: seq<Item>, p: nat, k: nat, d: nat, c: nat)
    requires p <= |items| && tail == items[p..] && k <= |tail| && w(items) == d + w(tail) && c + w(tail[k..]) == w(tail)
    ensures (c + d) + w(items[p + k..]) == w(items)
  {
    DropDrop(items, p, k);
  }

  lemma NotBlankChars(item: Item, e: string)
    requires Proper(item) && Show(item, InEscaped) <= e && !IsBlank(item)
    ensures 0 < |Show(item, InEscaped)| <= |e|
    ensures forall i :: 0 <= i < |Show(item, InEscaped)| ==> !IsRegexpSpace(e[i])
    ensures forall i :: 1 <= i < |Show(item, InEscaped)| ==> e[i] != '&'
  {
    var x := Show(item, InEscaped);
    EncodedShape(item, "");
    assert forall i :: 0 <= i < |x| ==> e[i] == x[i];
    assert forall i :: 1 <= i < |x| ==> x[i] == x[1..][i - 1];
  }

  lemma CloseBehindItem(items: seq<Item>, some: bool)
    requires items != [] && Proper(items[0]) && !IsBlank(items[0]) && (some || items[0] != Gt)
    ensures CloseAt(Flat(items, InEscaped), some) ==
      Shift(CloseAt(Flat(items[1..], InEscaped), false), |Show(items[0], InEscaped)|)
  {
    var x, rest := Show(items[0], InEscaped), Flat(items[1..], InEscaped);
    EncodedShape(items[0], rest);
    NotBlankChars(items[0], x + rest);
    CloseSkips(x + rest, |x|, some);
    assert (x + rest)[|x|..] == rest;
  }

  lemma CloseAtBlank(items: seq<Item>, some: bool)
    requires items != [] && IsBlank(items[0])
    ensures CloseAt(Flat(items, InEscaped), some) == None
  {
    var e := Flat(items, InEscaped);
    assert e[0] == items[0].c;
    NoGtHere(e);
    CloseStops(e, some);
  }

  lemma CloseAtGt(items: seq<Item>)
    requires items != [] && items[0] == Gt
    ensures CloseAt(Flat(items, InEscaped), false) == Some(0)
  {
    EncodedShape(Gt, Flat(items[1..], InEscaped));
  }

  lemma CloseItemsStep(items: seq<Item>, some: bool)
    requires items != [] && !IsBlank(items[0]) && (some || items[0] != Gt)
    ensures CloseItems(items, some) == Shift(CloseItems(items[1..], false), 1)
  {
  }

  lemma {:induction false} CloseAtFlat(items: seq<Item>, some: bool)
    requires AllProper(items)
    ensures Agree(items, CloseItems(items, some), CloseAt(Flat(items, InEscaped), some))
  {
    if items == [] {
    } else if !some && items[0] == Gt {
      CloseAtGt(items);
    } else if IsBlank(items[0]) {
      CloseAtBlank(items, some);
    } else {
      CloseAtFlat(items[1..], false);
      CloseBehindItem(items, some);
      CloseItemsStep(items, some);
      AgreeBehind(items, 1, |Show(items[0], InEscaped)|, CloseItems(items[1..], false),
                  CloseAt(Flat(items[1..], InEscaped), false));
    }
  }

  lemma LinkInsideParts(u: string, p: nat)
    requires p == Scheme(u)
    ensures p <= |u| && LinkInside(u) == if p == 0 then None else Shift(CloseAt(u[p..], true), p)
  {
  }

  lemma InsideItemsParts(items: seq<Item>, p: nat)
    requires p == SchemeItems(items)
    ensures InsideItems(items) == if p == 0 then None else Shift(CloseItems(items[p..], true), p)
  {
  }

  lemma LinkInsideFlat(items: seq<Item>)
    requires AllProper(items)
    ensures Agree(items, InsideItems(items), LinkInside(Flat(items, InEscaped)))
  {
    var u, p := Flat(items, InEscaped), SchemeItems(items);
    SchemeOfFlat(items);
    LinkInsideParts(u, p);
    InsideItemsParts(items, p);
    if p > 0 {
      CloseAtFlat(items[p..], true);
      AgreeBehind(items, p, p, CloseItems(items[p..], true), CloseAt(u[p..], true));
    }
  }

  lemma NoLinkGroup(e: string)
    requires !(LT <= e)
    ensures LinkGroup(e) == None
  {
  }

  lemma LinkGroupBehind(items: seq<Item>)
    requires items != [] && AllProper(items) && items[0] == Lt
    ensures LinkGroup(Flat(items, InEscaped)) == LinkInside(Flat(items[1..], InEscaped))
  {
    var u := Flat(items[1..], InEscaped);
    EncodedShape(Lt, u);
    assert (LT + u)[4..] == u;
  }

  lemma NoLinkItems(items: seq<Item>)
    requires AllProper(items) && LinkItems(items) == None
    ensures LinkGroup(Flat(items, InEscaped)) == None
  {
    var e := Flat(items, InEscaped);
    if items == [] {
      NoLinkGroup(e);
    } else if items[0] == Lt {
      LinkGroupBehind(items);
      LinkInsideFlat(items[1..]);
    } else {
      EncodedShape(items[0], Flat(items[1..], InEscaped));
      NoLinkGroup(e);
    }
  }

  /** The link found in the escaped message is the one the items show. */
  lemma LinkWidth(items: seq<Item>, k: nat)
    requires AllProper(items) && LinkItems(items) == Some(k)
    ensures LinkGroup(Flat(items, InEscaped)) == Some(|Flat(items[1..1 + k], InEscaped)|)
  {
    LinkGroupBehind(items);
    LinkInsideFlat(items[1..]);
    FlatLengths(items[1..], k);
    assert items[1..][..k] == items[1..1 + k];
  }

  // ---- a restored link ----

  lemma ReplaceStep(e: string)
    requires e != "" && !(AMP <= e)
    ensures ReplaceAll(e, AMP, "&") == [e[0]] + ReplaceAll(e[1..], AMP, "&")
  {
  }

  lemma {:induction false} ReplaceSkips(x: string, rest: string)
    requires NoAmp(x)
    ensures ReplaceAll(x + rest, AMP, "&") == x + ReplaceAll(rest, AMP, "&")
  {
    if x == "" {
      assert x + rest == rest;
    } else {
      DropConcat(x, rest);
      NoEntityHere(x + rest);
      ReplaceStep(x + rest);
      ReplaceSkips(x[1..], rest);
      DropConcat(x, ReplaceAll(rest, AMP, "&"));
    }
  }

  lemma ReplaceSkipsOther(x: string, rest: string)
    requires x != "" && NoAmp(x[1..]) && !(AMP <= x + rest)
    ensures ReplaceAll(x + rest, AMP, "&") == x + ReplaceAll(rest, AMP, "&")
  {
    DropConcat(x, rest);
    ReplaceStep(x + rest);
    ReplaceSkips(x[1..], rest);
    DropConcat(x, ReplaceAll(rest, AMP, "&"));
  }

  lemma ReplaceHit(e: string)
    requires AMP <= e
    ensures ReplaceAll(e, AMP, "&") == "&" + ReplaceAll(e[5..], AMP, "&")
  {
  }

  /** Inside a link every escaped ampersand is restored, and nothing else. */
  lemma {:induction false} ReplaceFlat(items: seq<Item>, tail: string)
    requires AllProper(items) && NoAmp(tail)
    ensures ReplaceAll(Flat(items, InEscaped) + tail, AMP, "&") == Flat(items, InLink) + tail
  {
    if items == [] {
      assert Flat(items, InEscaped) + tail == tail + "" && Flat(items, InLink) + tail == tail;
      ReplaceSkips(tail, "");
      assert tail + "" == tail;
    } else {
      var x, rest := Show(items[0], InEscaped), Flat(items[1..], InEscaped) + tail;
      Associate(x, Flat(items[1..], InEscaped), tail);
      Associate(Show(items[0], InLink), Flat(items[1..], InLink), tail);
      EncodedShape(items[0], rest);
      ReplaceFlat(items[1..], tail);
      if items[0] == Amp {
        ReplaceHit(x + rest);
        assert (x + rest)[5..] == rest;
      } else {
        ReplaceSkipsOther(x, rest);
      }
    }
  }

  lemma RestoreLinkFlat(m: string, group: seq<Item>)
    requires AllProper(group) && |m| >= 8 && m[4..|m| - 4] == Flat(group, InEscaped)
    ensures RestoreLink(m) == "<" + (Flat(group, InLink) + ">")
  {
    Associate("<", m[4..|m| - 4], ">");
    ReplaceSkips("<", m[4..|m| - 4] + ">");
    ReplaceFlat(group, ">");
  }

  // ---- restoring the links, item by item ----

  lemma LinkStep(e: string)
    requires e != "" && LinkGroup(e) == None
    ensures RestoreLinks(e) == [e[0]] + RestoreLinks(e[1..])
  {
  }

  lemma LinkFound(e: string, g: nat)
    requires LinkGroup(e) == Some(g)
    ensures 8 + g <= |e| && RestoreLinks(e) == RestoreLink(e[..8 + g]) + RestoreLinks(e[8 + g..])
  {
  }

  lemma {:induction false} RestoreLinksSkips(x: string, rest: string)
    requires NoAmp(x)
    ensures RestoreLinks(x + rest) == x + RestoreLinks(rest)
  {
    if x == "" {
      assert x + rest == rest;
    } else {
      DropConcat(x, rest);
      NoEntityHere(x + rest);
      NoLinkGroup(x + rest);
      LinkStep(x + rest);
      RestoreLinksSkips(x[1..], rest);
      DropConcat(x, RestoreLinks(rest));
    }
  }

  lemma RestoreLinksSkipsItem(x: string, rest: string)
    requires x != "" && NoAmp(x[1..]) && LinkGroup(x + rest) == None
    ensures RestoreLinks(x + rest) == x + RestoreLinks(rest)
  {
    DropConcat(x, rest);
    LinkStep(x + rest);
    RestoreLinksSkips(x[1..], rest);
    DropConcat(x, RestoreLinks(rest));
  }

  lemma BracketedFlat(items: seq<Item>, k: nat, place: Place)
    requires k + 2 <= |items| && items[0] == Lt && items[1 + k] == Gt
    ensures Flat(items, place) ==
      Show(Lt, place) + (Flat(items[1..1 + k], place) + (Show(Gt, place) + Flat(items[k + 2..], place)))
  {
    var tail := items[1..];
    FlatCut(tail, k, place);
    assert tail[..k] == items[1..1 + k] && tail[k] == Gt && tail[k..][1..] == items[k + 2..];
  }

  lemma FoundLinkRestored(e: string, group: seq<Item>, g: nat, rest: string)
    requires AllProper(group) && LinkGroup(e) == Some(g)
    requires e[4..4 + g] == Flat(group, InEscaped) && e[8 + g..] == rest
    ensures RestoreLinks(e) == "<" + (Flat(group, InLink) + (">" + RestoreLinks(rest)))
  {
    LinkFound(e, g);
    assert e[..8 + g][4..4 + g] == e[4..4 + g];
    RestoreLinkFlat(e[..8 + g], group);
    Associate("<", Flat(group, InLink) + ">", RestoreLinks(rest));
    Associate(Flat(group, InLink), ">", RestoreLinks(rest));
  }

  lemma LinkRestored(items: seq<Item>, k: nat)
    requires AllProper(items) && LinkItems(items) == Some(k)
    ensures RestoreLinks(Flat(items, InEscaped)) ==
      "<" + (Flat(items[1..1 + k], InLink) + (">" + RestoreLinks(Flat(items[k + 2..], InEscaped))))
  {
    var e, group := Flat(items, InEscaped), items[1..1 + k];
    var inner, rest := Flat(group, InEscaped), Flat(items[k + 2..], InEscaped);
    LinkWidth(items, k);
    BracketedFlat(items, k, InEscaped);
    FourSlices(e, LT, inner, GT, rest);
    FoundLinkRestored(e, group, |inner|, rest);
  }

  lemma {:induction false} RestoreLinksFlat(items: seq<Item>)
    requires AllProper(items)
    ensures RestoreLinks(Flat(items, InEscaped)) == LinkedText(items)
    decreases |items|
  {
    if items != [] {
      match LinkItems(items) {
        case Some(k) =>
          LinkRestored(items, k);
          RestoreLinksFlat(items[k + 2..]);
        case None =>
          var x, rest := Show(items[0], InEscaped), Flat(items[1..], InEscaped);
          NoLinkItems(items);
          EncodedShape(items[0], rest);
          RestoreLinksSkipsItem(x, rest);
          RestoreLinksFlat(items[1..]);
      }
    }
  }

  /** What the whole function makes of a message. */
  lemma EscapedShowsItems(s: string)
    ensures Escaped(s) == LinkedText(Lex(s))
  {
    RestoreUsersOfEscaped(s);
    LexIsProper(s);
    RestoreLinksFlat(Lex(s));
  }
}
