/** When two different messages look the same escaped. */
module Collisions {
  import opened Text
  import opened Escape
  import opened EscapeLaws
  import opened LinkLaws
  import opened WrittenLinks
  import opened References
  import opened ReferenceLaws

  // ---- what makes a link ambiguous ----

  /** The items, and then >, would be a reference if < stood in front of them. */
  predicate IsMention(items: seq<Item>) {
    MatchEscapedUser("<" + (Flat(items, InMessage) + ">")).Some?
  }

  /** At the front: a bracket, or an ampersand that could be one. */
  predicate AmbiguousLt(items: seq<Item>) {
    items != []
    && (items[0] == Lt || (items[0] == Amp && Spells(items[1..], "lt;") && !IsMention(items[4..])))
  }

  predicate HoldsAmbiguousLt(items: seq<Item>) {
    items != [] && (AmbiguousLt(items) || HoldsAmbiguousLt(items[1..]))
  }

  predicate AmbiguousGt(items: seq<Item>) {
    items != [] && (items[0] == Gt || (items[0] == Amp && Spells(items[1..], "gt;")))
  }

  /** The inside of a link: right behind its scheme a > or &gt;, or anywhere a < or &lt;. */
  predicate AmbiguousGroup(group: seq<Item>) {
    AmbiguousGt(group[SchemeItems(group)..]) || HoldsAmbiguousLt(group)
  }

  predicate Ambiguous(items: seq<Item>)
    decreases |items|
  {
    items != [] &&
    match LinkItems(items)
    case Some(k) => AmbiguousGroup(items[1..1 + k]) || Ambiguous(items[k + 2..])
    case None => Ambiguous(items[1..])
  }

  // ---- the items of a message ----

  /** No opening bracket begins a reference: that is how a message is read. */
  predicate Lexed(items: seq<Item>, rest: string) {
    items == []
    || ((items[0] == Lt ==> MatchEscapedUser(Flat(items, InMessage) + rest) == None) && Lexed(items[1..], rest))
  }

  lemma {:induction false} LexIsLexed(s: string)
    ensures Lexed(Lex(s), "")
    decreases |s|
  {
    if s != "" {
      LexIsLexed(Behind(s));
      LexIsFaithful(s);
      assert s + "" == s;
    }
  }

  lemma FirstOfFlat(item: Item, rest: string)
    requires Proper(item) && (item == Lt ==> MatchEscapedUser("<" + rest) == None)
    ensures Source(item) + rest != "" && First(Source(item) + rest) == item
  {
    match item {
      case Ref(id, name) => ReferenceMatches(id, name, rest);
      case _ =>
    }
  }

  lemma BehindOfFlat(item: Item, rest: string)
    requires Proper(item) && Source(item) + rest != "" && First(Source(item) + rest) == item
    ensures Behind(Source(item) + rest) == rest
  {
  }

  /** Items that are read as they are written are the items of what they spell. */
  lemma {:induction false} LexOfFlat(items: seq<Item>)
    requires AllProper(items) && Lexed(items, "")
    ensures Lex(Flat(items, InMessage)) == items
  {
    if items != [] {
      var rest := Flat(items[1..], InMessage);
      assert Flat(items, InMessage) + "" == Flat(items, InMessage);
      FirstOfFlat(items[0], rest);
      BehindOfFlat(items[0], rest);
      LexOfFlat(items[1..]);
    }
  }

  lemma {:induction false} LexedJoin(a: seq<Item>, b: seq<Item>, rest: string)
    ensures Lexed(a + b, rest) <==> Lexed(a, Flat(b, InMessage) + rest) && Lexed(b, rest)
  {
    if a == [] {
      assert a + b == b;
    } else {
      assert (a + b)[1..] == a[1..] + b;
      LexedJoin(a[1..], b, rest);
      FlatAppend(a, b, InMessage);
      Associate(Flat(a, InMessage), Flat(b, InMessage), rest);
    }
  }

  // ---- no ambiguity, no collision ----

  lemma RefHead(id: string, name: string, rest: string)
    ensures var s := RefText(id, name) + rest; |s| > 1 && s[0] == '<' && s[1] == '@'
  {
  }

  lemma SameRef(a: Item, b: Item, x: string, y: string)
    requires a.Ref? && b.Ref? && Proper(a) && Proper(b) && Source(a) + x == Source(b) + y
    ensures a == b
  {
    ReferenceMatches(a.id, a.name, x);
    ReferenceMatches(b.id, b.name, y);
  }

  lemma SameBehind(p: string, x: string, y: string)
    requires p + x == p + y
    ensures x == y
  {
    assert (p + x)[|p|..] == x && (p + y)[|p|..] == y;
  }

  lemma HeadOfEscaped(item: Item, x: string)
    requires Proper(item)
    ensures var s := Show(item, InEscaped) + x;
      && |s| > 0 && (item.Plain? ==> s[0] == item.c && IsPlain(s[0])) && (item.Ref? ==> |s| > 1 && s[0] == '<' && s[1] == '@')
      && (item == Amp ==> |s| > 1 && s[0] == '&' && s[1] == 'a') && (item == Lt ==> |s| > 1 && s[0] == '&' && s[1] == 'l')
      && (item == Gt ==> |s| > 1 && s[0] == '&' && s[1] == 'g')
  {
    if item.Ref? {
      RefHead(item.id, item.name, x);
    }
  }

  /** Outside a link, an item can be told from what it looks like escaped. */
  lemma SameEscapedHead(a: Item, b: Item, x: string, y: string)
    requires Proper(a) && Proper(b) && Show(a, InEscaped) + x == Show(b, InEscaped) + y
    ensures a == b && x == y
  {
    HeadOfEscaped(a, x);
    HeadOfEscaped(b, y);
    if a.Ref? {
      SameRef(a, b, x, y);
    }
    SameBehind(Show(a, InEscaped), x, y);
  }

  predicate StartsWithGt(s: string) { s != "" && s[0] == '>' }

  predicate NoGt(items: seq<Item>) {
    forall i :: 0 <= i < |items| ==> items[i] != Gt
  }

  /** In a link, an item can be told by its first characters, but for an ampersand and the brackets. */
  lemma HeadOfLinked(item: Item, x: string)
    requires Proper(item)
    ensures var s := Show(item, InLink) + x;
      && |s| > 0 && s[0] != '>' && (item.Plain? ==> s[0] == item.c && IsPlain(s[0])) && (item.Ref? ==> s[0] == '<')
      && (item == Amp ==> s[0] == '&') && (item == Lt ==> |s| > 1 && s[0] == '&' && s[1] == 'l')
      && (item == Gt ==> |s| > 1 && s[0] == '&' && s[1] == 'g')
  {
    if item.Ref? {
      RefHead(item.id, item.name, x);
    }
  }

  lemma SameLinkedHead(a: Item, b: Item, x: string, y: string)
    requires Proper(a) && Proper(b) && Show(a, InLink) + x == Show(b, InLink) + y
    requires a.Plain? || a.Ref? || b.Plain? || b.Ref? || a == b
    ensures a == b && x == y
  {
    HeadOfLinked(a, x);
    HeadOfLinked(b, y);
    if a.Ref? {
      SameRef(a, b, x, y);
    }
    SameBehind(Show(a, InLink), x, y);
  }

  lemma NothingBefore(items: seq<Item>, tail: string)
    requires AllProper(items) && StartsWithGt(Flat(items, InLink) + tail)
    ensures items == []
  {
    if items != [] {
      HeadOfFlat(items, InLink, tail);
      HeadOfLinked(items[0], Flat(items[1..], InLink) + tail);
    }
  }

  lemma MentionPrefix(id: string, name: string, m: string, t: string)
    requires RefText(id, name) <= "<" + t && RefText(id, name) + "" == ['<'] + (m + (['>'] + ""))
    ensures m + ">" <= t && RefText(id, name) == "<" + (m + ">")
  {
    assert RefText(id, name) + "" == RefText(id, name) && ['>'] + "" == ">";
    var r := m + ">";
    assert RefText(id, name) == ['<'] + r;
    assert ("<" + t)[1..] == t && (['<'] + r)[1..] == r;
    PrefixCons(['<'] + r, "<" + t);
  }

  /** A mention is plain text up to its bracket. */
  lemma MentionText(t: string) returns (m: string)
    requires MatchEscapedUser("<" + t).Some?
    ensures AllPlain(m) && m + ">" <= t && MatchEscapedUser("<" + (m + ">")).Some?
  {
    var user := MatchEscapedUser("<" + t).value;
    EscapedUserMatches("<" + t, user);
    m := ['@'] + IdName(user.id, user.name, "");
    IdNameIsPlain(user.id, user.name);
    RefAsBracketed(user.id, user.name, "");
    MentionPrefix(user.id, user.name, m, t);
    ReferenceMatches(user.id, user.name, "");
    assert RefText(user.id, user.name) + "" == "<" + (m + ">");
  }

  lemma ShorterPrefix(m: string, x: string, t: string)
    requires m + x <= t
    ensures m <= t
  {
    assert (m + x)[..|m|] == m;
  }

  /** What a mention spells. */
  lemma MentionSpelled(items: seq<Item>) returns (m: string)
    requires AllProper(items) && NoGt(items) && IsMention(items)
    ensures AllPlain(m) && Spells(items, m) && |items| == |m| && MatchEscapedUser("<" + (m + ">")).Some?
  {
    var t := Flat(items, InMessage) + ">";
    m := MentionText(t);
    ShorterPrefix(m, ">", t);
    SpellsPrefix(items, m, InMessage, ">");
    SpelledFlat(items, m, InMessage);
    MentionEnds(items[|m|..], m);
  }

  lemma NotGtInFront(items: seq<Item>)
    requires AllProper(items) && NoGt(items) && items != []
    ensures !(">" <= Flat(items, InMessage) + ">")
  {
    var s := Flat(items, InMessage) + ">";
    HeadOfFlat(items, InMessage, ">");
    NotGtFirst(items[0]);
    assert s[0] == Source(items[0])[0];
  }

  lemma MentionEnds(rest: seq<Item>, m: string)
    requires AllProper(rest) && NoGt(rest) && m + ">" <= (m + Flat(rest, InMessage)) + ">"
    ensures rest == []
  {
    Associate(m, Flat(rest, InMessage), ">");
    SamePrefixBehind(m, ">", Flat(rest, InMessage) + ">");
    if rest != [] {
      NotGtInFront(rest);
    }
  }

  lemma NotGtFirst(item: Item)
    requires Proper(item) && item != Gt
    ensures Source(item) != "" && Source(item)[0] != '>'
  {
  }

  lemma SamePrefixBehind(p: string, x: string, y: string)
    requires p + x <= p + y
    ensures x <= y
  {
    assert (p + x)[|p|..] == x && (p + y)[|p|..] == y;
    assert p + y == (p + x) + (p + y)[|p + x|..];
    assert y == x + (p + y)[|p + x|..];
  }

  /** If both look the same in a link, one is a mention because the other is. */
  lemma MentionTransfers(a: seq<Item>, b: seq<Item>, x: string, y: string)
    requires AllProper(a) && AllProper(b) && NoGt(a) && StartsWithGt(x) && StartsWithGt(y)
    requires Flat(a, InLink) + x == Flat(b, InLink) + y && IsMention(a)
    ensures IsMention(b)
  {
    var m := MentionSpelled(a);
    SpelledAll(a, m, InLink);
    assert m <= m + x;
    SpellsPrefix(b, m, InLink, y);
    SpelledFlat(b, m, InLink);
    Associate(m, Flat(b[|m|..], InLink), y);
    SameBehind(m, x, Flat(b[|m|..], InLink) + y);
    NothingBefore(b[|m|..], y);
    SpelledAll(b, m, InMessage);
  }

  lemma SpelledAll(items: seq<Item>, m: string, place: Place)
    requires Spells(items, m) && |items| == |m|
    ensures Flat(items, place) == m
  {
    SpelledFlat(items, m, place);
    assert items[|m|..] == [] && m + "" == m;
  }

  /** A bracket cannot be confused with an ampersand that is not ambiguous. */
  lemma NoConfusion(a: seq<Item>, b: seq<Item>, x: string, y: string)
    requires AllProper(a) && AllProper(b) && NoGt(a) && NoGt(b) && StartsWithGt(x) && StartsWithGt(y)
    requires a != [] && b != [] && a[0] == Amp && b[0] == Lt && !AmbiguousLt(a)
    requires Flat(a, InLink) + x == Flat(b, InLink) + y
    ensures IsMention(b[1..])
  {
    var u, v := Flat(a[1..], InLink) + x, Flat(b[1..], InLink) + y;
    HeadOfFlat(a, InLink, x);
    HeadOfFlat(b, InLink, y);
    Associate("&", "lt;", v);
    assert LT == "&" + "lt;";
    SameBehind("&", u, "lt;" + v);
    assert "lt;" <= u;
    SpellsPrefix(a[1..], "lt;", InLink, x);
    SpelledFlat(a[1..], "lt;", InLink);
    var a' := a[1..][3..];
    assert a' == a[4..];
    Associate("lt;", Flat(a', InLink), x);
    SameBehind("lt;", Flat(a', InLink) + x, v);
    MentionTransfers(a', b[1..], x, y);
  }

  lemma PrefixSplit(r: string, s: string) returns (rest: string)
    requires r <= s
    ensures s == r + rest
  {
    rest := s[|r|..];
  }

  lemma ReferenceInFront(id: string, name: string, s: string)
    requires AllIn(id, IsIDChar) && AllIn(name, IsNameChar) && RefText(id, name) <= s
    ensures MatchEscapedUser(s).Some?
  {
    var rest := PrefixSplit(RefText(id, name), s);
    ReferenceMatches(id, name, rest);
  }

  lemma PrefixGoesOn(r: string, s: string, more: string)
    requires r <= s
    ensures r <= s + more
  {
    assert (s + more)[..|r|] == s[..|r|];
  }

  /** More text behind a reference does not matter. */
  lemma ReferenceGoesOn(s: string, more: string)
    requires MatchEscapedUser(s).Some?
    ensures MatchEscapedUser(s + more).Some?
  {
    var user := MatchEscapedUser(s).value;
    EscapedUserMatches(s, user);
    PrefixGoesOn(RefText(user.id, user.name), s, more);
    ReferenceInFront(user.id, user.name, s + more);
  }

  lemma Regroup(t: string, more: string)
    ensures ("<" + (t + ">")) + more == ("<" + t) + (">" + more)
  {
    Associate("<", t, ">");
    Associate("<" + t, ">", more);
  }

  /** A mention behind a bracket is a reference, not a bracket and a mention. */
  lemma MentionIsNotLexed(b: seq<Item>, rest: string)
    requires b != [] && b[0] == Lt && IsMention(b[1..]) && StartsWithGt(rest)
    ensures !Lexed(b, rest)
  {
    var t := Flat(b[1..], InMessage);
    assert rest == ">" + rest[1..];
    ReferenceGoesOn("<" + (t + ">"), rest[1..]);
    Regroup(t, rest[1..]);
  }

  lemma AmbiguityBehind(items: seq<Item>)
    requires items != [] && !HoldsAmbiguousLt(items)
    ensures !AmbiguousLt(items) && !HoldsAmbiguousLt(items[1..])
  {
  }

  lemma SameFirst(a: seq<Item>, b: seq<Item>, x: string, y: string, rest: string)
    requires AllProper(a) && AllProper(b) && NoGt(a) && NoGt(b) && StartsWithGt(x) && StartsWithGt(y)
    requires a != [] && b != [] && !AmbiguousLt(a) && Lexed(b, rest) && StartsWithGt(rest)
    requires Flat(a, InLink) + x == Flat(b, InLink) + y
    ensures a[0] == b[0] && Flat(a[1..], InLink) + x == Flat(b[1..], InLink) + y
  {
    var u, v := Flat(a[1..], InLink) + x, Flat(b[1..], InLink) + y;
    HeadOfFlat(a, InLink, x);
    HeadOfFlat(b, InLink, y);
    HeadOfLinked(a[0], u);
    HeadOfLinked(b[0], v);
    if b[0] == Lt {
      NoConfusion(a, b, x, y);
      MentionIsNotLexed(b, rest);
    }
    SameLinkedHead(a[0], b[0], u, v);
  }

  lemma BothEmpty(a: seq<Item>, b: seq<Item>, x: string, y: string)
    requires AllProper(a) && AllProper(b) && StartsWithGt(x) && StartsWithGt(y) && (a == [] || b == [])
    requires Flat(a, InLink) + x == Flat(b, InLink) + y
    ensures a == b == [] && x == y
  {
    assert "" + x == x && "" + y == y;
    if a == [] {
      NothingBefore(b, y);
    } else {
      NothingBefore(a, x);
    }
  }

  lemma SameCons(a: seq<Item>, b: seq<Item>)
    requires a != [] && b != [] && a[0] == b[0] && a[1..] == b[1..]
    ensures a == b
  {
    assert a == [a[0]] + a[1..] && b == [b[0]] + b[1..];
  }

  lemma ProperTail(items: seq<Item>)
    requires items != [] && AllProper(items) && NoGt(items)
    ensures AllProper(items[1..]) && NoGt(items[1..])
  {
  }

  /** Without ambiguity, the inside of a link can be told from what it looks like. */
  lemma {:induction false} SameBody(a: seq<Item>, b: seq<Item>, x: string, y: string, rest: string)
    requires AllProper(a) && AllProper(b) && NoGt(a) && NoGt(b) && StartsWithGt(x) && StartsWithGt(y)
    requires !HoldsAmbiguousLt(a) && Lexed(b, rest) && StartsWithGt(rest)
    requires Flat(a, InLink) + x == Flat(b, InLink) + y
    ensures a == b && x == y
  {
    if a == [] || b == [] {
      BothEmpty(a, b, x, y);
    } else {
      AmbiguityBehind(a);
      SameFirst(a, b, x, y, rest);
      ProperTail(a);
      ProperTail(b);
      SameBody(a[1..], b[1..], x, y, rest);
      SameCons(a, b);
    }
  }

  // ---- the shape of a link ----

  lemma {:induction false} CloseShape(items: seq<Item>, some: bool)
    requires CloseItems(items, some).Some?
    ensures var n := CloseItems(items, some).value;
      && (forall i :: 0 <= i < n ==> !IsBlank(items[i])) && (forall i :: (if some then 1 else 0) <= i < n ==> items[i] != Gt)
  {
    if some || items[0] != Gt {
      CloseShape(items[1..], false);
      assert forall i :: 1 <= i < |items| ==> items[i] == items[1..][i - 1];
    }
  }

  /** What stands behind the scheme of a link: no blank, and a > at most at its beginning. */
  predicate IsBody(body: seq<Item>) {
    body != [] && (forall i :: 0 <= i < |body| ==> !IsBlank(body[i])) && NoGt(body[1..])
  }

  lemma {:induction false} CloseBody(body: seq<Item>, rest: seq<Item>)
    requires IsBody(body)
    ensures CloseItems(body + ([Gt] + rest), true) == Some(|body|)
  {
    var items := body + ([Gt] + rest);
    assert items[1..] == body[1..] + ([Gt] + rest);
    CloseItemsBehind(body[1..], rest, false);
  }

  lemma {:induction false} SpellsFront(a: seq<Item>, b: seq<Item>, p: string)
    requires |p| <= |a|
    ensures Spells(a + b, p) <==> Spells(a, p)
  {
    if p != "" {
      assert (a + b)[1..] == a[1..] + b;
      SpellsFront(a[1..], b, p[1..]);
    }
  }

  lemma BodyShape(behind: seq<Item>, n: nat)
    requires CloseItems(behind, true) == Some(n)
    ensures 0 < n < |behind| && IsBody(behind[..n])
  {
    CloseShape(behind, true);
    assert forall i :: 0 <= i < n ==> behind[..n][i] == behind[i];
    assert behind[..n][1..] == behind[1..n];
  }

  lemma WholeLink(items: seq<Item>, k: nat)
    requires k + 2 <= |items| && items[0] == Lt && items[1 + k] == Gt
    ensures items == [Lt] + (items[1..1 + k] + ([Gt] + items[k + 2..]))
  {
  }

  /** The items before, in and behind a link. */
  lemma LinkShape(items: seq<Item>, k: nat) returns (p: nat)
    requires LinkItems(items) == Some(k)
    ensures items == [Lt] + (items[1..1 + k] + ([Gt] + items[k + 2..]))
    ensures 0 < p < k && p == SchemeItems(items[1..1 + k]) && IsBody(items[1..1 + k][p..])
  {
    WholeLink(items, k);
    p := GroupShape(items[1..], items[1..1 + k], k);
  }

  lemma GroupShape(tail: seq<Item>, group: seq<Item>, k: nat) returns (p: nat)
    requires InsideItems(tail) == Some(k) && k <= |tail| && group == tail[..k]
    ensures 0 < p < k && p == SchemeItems(group) && IsBody(group[p..])
  {
    p := SchemeItems(tail);
    InsideItemsParts(tail, p);
    BodyShape(tail[p..], k - p);
    SliceOfSlice(tail, k, p);
    SchemeOfGroup(tail, group, k);
  }

  lemma SliceOfSlice(tail: seq<Item>, k: nat, p: nat)
    requires p <= k <= |tail|
    ensures tail[..k][p..] == tail[p..][..k - p]
  {
  }

  lemma SchemeOfGroup(tail: seq<Item>, group: seq<Item>, k: nat)
    requires k <= |tail| && group == tail[..k] && 0 < SchemeItems(tail) < k
    ensures SchemeItems(group) == SchemeItems(tail)
  {
    assert tail == group + tail[k..];
    if Spells(tail, "http://") {
      SpellsFront(group, tail[k..], "http://");
    } else {
      SpellsFront(group, tail[k..], "https://");
      if Spells(group, "http://") {
        SpellsFront(group, tail[k..], "http://");
      }
    }
  }

  // ---- two messages that look the same ----

  lemma LinkLooks(items: seq<Item>, k: nat)
    requires LinkItems(items) == Some(k)
    ensures var e := LinkedText(items);
      e == "<" + (Flat(items[1..1 + k], InLink) + (">" + LinkedText(items[k + 2..])))
      && |e| > 1 && e[0] == '<' && e[1] == 'h'
  {
    var p := LinkShape(items, k);
    var group := items[1..1 + k];
    LinkedTextStep(items, k, group, items[k + 2..]);
    assert group[0] == Plain('h');
  }

  lemma NoLinkLooks(items: seq<Item>)
    requires items != [] && LinkItems(items) == None && Proper(items[0])
    ensures var e := LinkedText(items);
      e == Show(items[0], InEscaped) + LinkedText(items[1..]) && |e| > 0 && !(|e| > 1 && e[0] == '<' && e[1] == 'h')
  {
    HeadOfEscaped(items[0], LinkedText(items[1..]));
  }

  /** Behind the scheme both links go on alike. */
  lemma SameScheme(a: seq<Item>, b: seq<Item>, x: string, y: string) returns (h: string)
    requires AllProper(a) && AllProper(b) && StartsWithGt(x) && StartsWithGt(y)
    requires Flat(a, InLink) + x == Flat(b, InLink) + y && SchemeItems(a) > 0
    ensures IsScheme(h) && SchemeItems(a) == SchemeItems(b) == |h| && Spells(a, h) && Spells(b, h)
    ensures Flat(a[|h|..], InLink) + x == Flat(b[|h|..], InLink) + y
  {
    SpellsPrefix(a, "http://", InLink, x);
    SpellsPrefix(b, "http://", InLink, y);
    SpellsPrefix(a, "https://", InLink, x);
    SpellsPrefix(b, "https://", InLink, y);
    h := if Spells(a, "http://") then "http://" else "https://";
    BehindScheme(a, b, x, y, h);
  }

  lemma BehindScheme(a: seq<Item>, b: seq<Item>, x: string, y: string, h: string)
    requires Flat(a, InLink) + x == Flat(b, InLink) + y && Spells(a, h) && Spells(b, h)
    ensures Flat(a[|h|..], InLink) + x == Flat(b[|h|..], InLink) + y
  {
    SpelledFlat(a, h, InLink);
    SpelledFlat(b, h, InLink);
    Associate(h, Flat(a[|h|..], InLink), x);
    Associate(h, Flat(b[|h|..], InLink), y);
    SameBehind(h, Flat(a[|h|..], InLink) + x, Flat(b[|h|..], InLink) + y);
  }

  lemma {:induction false} UnambiguousBehind(items: seq<Item>, n: nat)
    requires !HoldsAmbiguousLt(items) && n <= |items|
    ensures !HoldsAmbiguousLt(items[n..])
  {
    if n > 0 {
      UnambiguousBehind(items[1..], n - 1);
      assert items[1..][n - 1..] == items[n..];
    } else {
      assert items[0..] == items;
    }
  }

  lemma {:induction false} LexedBehind(items: seq<Item>, n: nat, rest: string)
    requires Lexed(items, rest) && n <= |items|
    ensures Lexed(items[n..], rest)
  {
    assert items == items[..n] + items[n..];
    LexedJoin(items[..n], items[n..], rest);
  }

  /** A > right behind the scheme is no > if it is not ambiguous. */
  lemma NoGtBehindScheme(a: seq<Item>, b: seq<Item>, x: string, y: string)
    requires AllProper(a) && AllProper(b) && StartsWithGt(x) && StartsWithGt(y) && IsBody(a) && IsBody(b)
    requires !AmbiguousGt(a) && Flat(a, InLink) + x == Flat(b, InLink) + y
    ensures NoGt(a) && NoGt(b)
  {
    var u, v := Flat(a[1..], InLink) + x, Flat(b[1..], InLink) + y;
    HeadOfFlat(a, InLink, x);
    HeadOfFlat(b, InLink, y);
    HeadOfLinked(a[0], u);
    HeadOfLinked(b[0], v);
    if b[0] == Gt {
      SpelledGt(a, x, v);
    }
    assert forall i :: 1 <= i < |a| ==> a[i] == a[1..][i - 1];
    assert forall i :: 1 <= i < |b| ==> b[i] == b[1..][i - 1];
  }

  lemma SpelledGt(a: seq<Item>, x: string, v: string)
    requires AllProper(a) && a != [] && a[0] == Amp && StartsWithGt(x)
    requires "&" + (Flat(a[1..], InLink) + x) == GT + v
    ensures Spells(a[1..], "gt;")
  {
    var u := Flat(a[1..], InLink) + x;
    assert GT == "&" + "gt;";
    Associate("&", "gt;", v);
    SameBehind("&", u, "gt;" + v);
    assert "gt;" <= u;
    SpellsPrefix(a[1..], "gt;", InLink, x);
  }

  lemma SameGroup(a: seq<Item>, b: seq<Item>, x: string, y: string, rest: string)
    requires AllProper(a) && AllProper(b) && StartsWithGt(x) && StartsWithGt(y) && StartsWithGt(rest)
    requires SchemeItems(a) > 0 && IsBody(a[SchemeItems(a)..]) && IsBody(b[SchemeItems(b)..])
    requires !AmbiguousGroup(a) && Lexed(b, rest) && Flat(a, InLink) + x == Flat(b, InLink) + y
    ensures a == b && x == y
  {
    var h := SameScheme(a, b, x, y);
    var n := |h|;
    NoGtBehindScheme(a[n..], b[n..], x, y);
    UnambiguousBehind(a, n);
    LexedBehind(b, n, rest);
    SameBody(a[n..], b[n..], x, y, rest);
    SpelledSame(a, b, h);
  }

  lemma {:induction false} SpelledSame(a: seq<Item>, b: seq<Item>, h: string)
    requires Spells(a, h) && Spells(b, h) && a[|h|..] == b[|h|..]
    ensures a == b
  {
    if h != "" {
      assert a[1..][|h| - 1..] == a[|h|..] && b[1..][|h| - 1..] == b[|h|..];
      SpelledSame(a[1..], b[1..], h[1..]);
      assert a == [a[0]] + a[1..] && b == [b[0]] + b[1..];
    } else {
      assert a[0..] == a && b[0..] == b;
    }
  }

  lemma LinkLexed(items: seq<Item>, k: nat)
    requires LinkItems(items) == Some(k) && Lexed(items, "")
    ensures Lexed(items[1..1 + k], ">" + Flat(items[k + 2..], InMessage)) && Lexed(items[k + 2..], "")
  {
    var p := LinkShape(items, k);
    var group, rest := items[1..1 + k], items[k + 2..];
    var tail := [Gt] + rest;
    LexedJoin([Lt], group + tail, "");
    LexedJoin(group, tail, "");
    LexedJoin([Gt], rest, "");
    FlatCons(Gt, rest, InMessage);
    assert Flat(tail, InMessage) + "" == ">" + Flat(rest, InMessage);
  }

  lemma SameLinkText(a: seq<Item>, b: seq<Item>, k: nat, l: nat, x: string, y: string)
    requires LinkItems(a) == Some(k) && LinkItems(b) == Some(l) && LinkedText(a) == LinkedText(b)
    requires x == ">" + LinkedText(a[k + 2..]) && y == ">" + LinkedText(b[l + 2..])
    ensures Flat(a[1..1 + k], InLink) + x == Flat(b[1..1 + l], InLink) + y
  {
    LinkLooks(a, k);
    LinkLooks(b, l);
    SameBehind("<", Flat(a[1..1 + k], InLink) + x, Flat(b[1..1 + l], InLink) + y);
  }

  lemma ProperGroup(items: seq<Item>, k: nat)
    requires AllProper(items) && k + 2 <= |items|
    ensures AllProper(items[1..1 + k])
  {
  }

  lemma SameLink(a: seq<Item>, b: seq<Item>, k: nat, l: nat)
    requires AllProper(a) && AllProper(b) && Lexed(b, "") && LinkItems(a) == Some(k) && LinkItems(b) == Some(l)
    requires !AmbiguousGroup(a[1..1 + k]) && LinkedText(a) == LinkedText(b)
    ensures a[1..1 + k] == b[1..1 + l] && LinkedText(a[k + 2..]) == LinkedText(b[l + 2..])
  {
    var p := LinkShape(a, k);
    var q := LinkShape(b, l);
    var x, y := ">" + LinkedText(a[k + 2..]), ">" + LinkedText(b[l + 2..]);
    SameLinkText(a, b, k, l, x, y);
    ProperGroup(a, k);
    ProperGroup(b, l);
    LinkLexed(b, l);
    SameGroup(a[1..1 + k], b[1..1 + l], x, y, ">" + Flat(b[l + 2..], InMessage));
    SameBehind(">", LinkedText(a[k + 2..]), LinkedText(b[l + 2..]));
  }

  lemma BothLinks(a: seq<Item>, b: seq<Item>)
    requires a != [] && b != [] && AllProper(a) && AllProper(b) && LinkedText(a) == LinkedText(b)
    ensures LinkItems(a).Some? <==> LinkItems(b).Some?
  {
    match LinkItems(a) {
      case Some(k) => LinkLooks(a, k);
      case None => NoLinkLooks(a);
    }
    match LinkItems(b) {
      case Some(k) => LinkLooks(b, k);
      case None => NoLinkLooks(b);
    }
  }

  lemma SameFirstItem(a: seq<Item>, b: seq<Item>)
    requires a != [] && b != [] && AllProper(a) && AllProper(b) && LinkedText(a) == LinkedText(b)
    requires LinkItems(a) == LinkItems(b) == None
    ensures a[0] == b[0] && LinkedText(a[1..]) == LinkedText(b[1..])
  {
    NoLinkLooks(a);
    NoLinkLooks(b);
    SameEscapedHead(a[0], b[0], LinkedText(a[1..]), LinkedText(b[1..]));
  }

  lemma SameLinkAndRest(a: seq<Item>, b: seq<Item>, k: nat, l: nat)
    requires LinkItems(a) == Some(k) && LinkItems(b) == Some(l)
    requires a[1..1 + k] == b[1..1 + l] && a[k + 2..] == b[l + 2..]
    ensures a == b
  {
    WholeLink(a, k);
    WholeLink(b, l);
  }

  lemma NotAmbiguousParts(items: seq<Item>)
    requires items != [] && !Ambiguous(items)
    ensures match LinkItems(items)
      case Some(k) => !AmbiguousGroup(items[1..1 + k]) && !Ambiguous(items[k + 2..])
      case None => !Ambiguous(items[1..])
  {
  }

  /** What is not ambiguous can be told from what it looks like escaped. */
  lemma {:induction false} SameItems(a: seq<Item>, b: seq<Item>)
    requires AllProper(a) && AllProper(b) && Lexed(b, "") && !Ambiguous(a)
    requires LinkedText(a) == LinkedText(b)
    ensures a == b
    decreases |a|
  {
    if a == [] || b == [] {
      NothingLooksEmpty(if a == [] then b else a);
    } else {
      BothLinks(a, b);
      NotAmbiguousParts(a);
      match LinkItems(a) {
        case Some(k) =>
          var l := LinkItems(b).value;
          SameLink(a, b, k, l);
          LinkLexed(b, l);
          SameItems(a[k + 2..], b[l + 2..]);
          SameLinkAndRest(a, b, k, l);
        case None =>
          SameFirstItem(a, b);
          SameItems(a[1..], b[1..]);
          SameCons(a, b);
      }
    }
  }

  lemma NothingLooksEmpty(items: seq<Item>)
    requires AllProper(items) && LinkedText(items) == ""
    ensures items == []
  {
    if items != [] {
      match LinkItems(items) {
        case Some(k) => LinkLooks(items, k);
        case None => NoLinkLooks(items);
      }
    }
  }

  // ---- an ambiguous message has a twin ----

  lemma RefTail(id: string, name: string)
    requires AllIn(id, IsIDChar) && AllIn(name, IsNameChar)
    ensures forall i :: 1 <= i < |RefText(id, name)| ==> RefText(id, name)[i] !in "<&"
    ensures forall i :: 0 <= i < |RefText(id, name)| - 1 ==> RefText(id, name)[i] != '>'
  {
  }

  /** A reference ends before a character that cannot be in one. */
  lemma RefEndsBefore(id: string, name: string, u: string, c: char, v: string)
    requires AllIn(id, IsIDChar) && AllIn(name, IsNameChar) && RefText(id, name) <= u + ([c] + v)
    requires u != "" && c in "<&"
    ensures RefText(id, name) <= u
  {
    var r, s := RefText(id, name), u + ([c] + v);
    RefTail(id, name);
    assert s[|u|] == c;
    assert forall i :: 1 <= i < |r| ==> s[i] == r[i];
    assert r == s[..|r|];
  }

  /** What stands behind such a character does not matter. */
  lemma RefWithin(u: string, c: char, v: string, c': char, v': string)
    requires u != "" && c in "<&" && MatchEscapedUser(u + ([c] + v)) == None && c' in "<&"
    ensures MatchEscapedUser(u + ([c'] + v')) == None
  {
    var s := u + ([c'] + v');
    if MatchEscapedUser(s).Some? {
      var user := MatchEscapedUser(s).value;
      EscapedUserMatches(s, user);
      RefEndsBefore(user.id, user.name, u, c', v');
      PrefixGoesOn(RefText(user.id, user.name), u, [c] + v);
      ReferenceInFront(user.id, user.name, u + ([c] + v));
    }
  }

  predicate Separates(s: string) { s != "" && s[0] in "<&" }

  lemma {:induction false} LexedSwap(x: seq<Item>, y: seq<Item>, y': seq<Item>, rest: string)
    requires Lexed(x + y, rest) && Lexed(y', rest)
    requires Separates(Flat(y, InMessage) + rest) && Separates(Flat(y', InMessage) + rest)
    ensures Lexed(x + y', rest)
  {
    if x == [] {
      assert x + y' == y';
    } else {
      assert (x + y)[1..] == x[1..] + y && (x + y')[1..] == x[1..] + y';
      LexedSwap(x[1..], y, y', rest);
      if x[0] == Lt {
        LtSwap(x, y, y', rest);
      }
    }
  }

  lemma SwapBehind(u: string, s: string, s': string)
    requires u != "" && Separates(s) && Separates(s') && MatchEscapedUser(u + s) == None
    ensures MatchEscapedUser(u + s') == None
  {
    assert s == [s[0]] + s[1..] && s' == [s'[0]] + s'[1..];
    RefWithin(u, s[0], s[1..], s'[0], s'[1..]);
  }

  lemma FlatJoin(x: seq<Item>, y: seq<Item>, rest: string)
    ensures Flat(x + y, InMessage) + rest == Flat(x, InMessage) + (Flat(y, InMessage) + rest)
  {
    FlatAppend(x, y, InMessage);
    Associate(Flat(x, InMessage), Flat(y, InMessage), rest);
  }

  lemma FlatNotEmpty(x: seq<Item>)
    requires x != [] && x[0] == Lt
    ensures Flat(x, InMessage) != ""
  {
  }

  lemma SwapBehindIn(w: string, w': string, u: string, s: string, s': string)
    requires w == u + s && w' == u + s' && u != "" && Separates(s) && Separates(s')
    ensures MatchEscapedUser(w) == None ==> MatchEscapedUser(w') == None
  {
    if MatchEscapedUser(w) == None {
      SwapBehind(u, s, s');
    }
  }

  lemma LtSwap(x: seq<Item>, y: seq<Item>, y': seq<Item>, rest: string)
    requires x != [] && x[0] == Lt
    requires Separates(Flat(y, InMessage) + rest) && Separates(Flat(y', InMessage) + rest)
    ensures MatchEscapedUser(Flat(x + y, InMessage) + rest) == None ==>
      MatchEscapedUser(Flat(x + y', InMessage) + rest) == None
  {
    FlatNotEmpty(x);
    FlatJoin(x, y, rest);
    FlatJoin(x, y', rest);
    SwapBehindIn(Flat(x + y, InMessage) + rest, Flat(x + y', InMessage) + rest,
                 Flat(x, InMessage), Flat(y, InMessage) + rest, Flat(y', InMessage) + rest);
  }

  lemma {:induction false} SpellsStops(x: seq<Item>, y: seq<Item>, p: string)
    requires y == [] || !y[0].Plain?
    ensures Spells(x + y, p) <==> Spells(x, p)
  {
    if p != "" && x != [] {
      assert (x + y)[1..] == x[1..] + y;
      SpellsStops(x[1..], y, p[1..]);
    } else if p != "" {
      assert x + y == y;
    }
  }

  lemma SchemeStops(x: seq<Item>, y: seq<Item>)
    requires y == [] || !y[0].Plain?
    ensures SchemeItems(x + y) == SchemeItems(x)
  {
    SpellsStops(x, y, "http://");
    SpellsStops(x, y, "https://");
  }

  lemma MakeLink(group: seq<Item>, rest: seq<Item>)
    requires var p := SchemeItems(group); p > 0 && IsBody(group[p..])
    ensures LinkItems([Lt] + (group + ([Gt] + rest))) == Some(|group|)
  {
    var p, tail := SchemeItems(group), group + ([Gt] + rest);
    SchemeStops(group, [Gt] + rest);
    assert tail[p..] == group[p..] + ([Gt] + rest);
    CloseBody(group[p..], rest);
    InsideItemsParts(tail, p);
    assert ([Lt] + tail)[1..] == tail;
  }

  lemma {:induction false} CloseThere(group: seq<Item>, rest: seq<Item>)
    requires forall i :: 0 <= i < |group| ==> !IsBlank(group[i])
    ensures CloseItems(group + ([Gt] + rest), false).Some?
  {
    if group != [] {
      assert (group + ([Gt] + rest))[1..] == group[1..] + ([Gt] + rest);
      CloseThere(group[1..], rest);
    }
  }

  lemma {:induction false} NoCloseInFront(x: seq<Item>, y: seq<Item>, y': seq<Item>, some: bool)
    requires CloseItems(y, false).Some?
    ensures CloseItems(x + ([Lt] + y), some) == None ==> CloseItems(x + ([Lt] + y'), some) == None
  {
    if x == [] {
      assert x + ([Lt] + y) == [Lt] + y && ([Lt] + y)[1..] == y;
    } else {
      assert (x + ([Lt] + y))[1..] == x[1..] + ([Lt] + y);
      assert (x + ([Lt] + y'))[1..] == x[1..] + ([Lt] + y');
      NoCloseInFront(x[1..], y, y', false);
    }
  }

  lemma DropOfJoin(x: seq<Item>, z: seq<Item>, p: nat)
    requires p <= |x|
    ensures (x + z)[p..] == x[p..] + z
  {
  }

  lemma InsideOfJoin(x: seq<Item>, z: seq<Item>)
    requires z != [] && !z[0].Plain?
    ensures var p := SchemeItems(x);
      InsideItems(x + z) == if p == 0 then None else Shift(CloseItems(x[p..] + z, true), p)
  {
    SchemeStops(x, z);
    InsideItemsParts(x + z, SchemeItems(x));
    DropOfJoin(x, z, SchemeItems(x));
  }

  /** A bracket that opens no link in front of a link opens none in front of its twin. */
  lemma NoLinkInFront(x: seq<Item>, y: seq<Item>, y': seq<Item>)
    requires InsideItems(x + ([Lt] + y)) == None && CloseItems(y, false).Some?
    ensures InsideItems(x + ([Lt] + y')) == None
  {
    InsideOfJoin(x, [Lt] + y);
    InsideOfJoin(x, [Lt] + y');
    NoCloseInFront(x[SchemeItems(x)..], y, y', true);
  }

  // ---- the twin of a group ----

  /** An ampersand and what makes it an entity. */
  function Entity(w: string): seq<Item> { [Amp] + Plains(w) }

  lemma EntityLooks(item: Item, w: string)
    requires (item == Lt && w == "lt;") || (item == Gt && w == "gt;")
    ensures Flat(Entity(w), InLink) == Flat([item], InLink) && AllProper(Entity(w)) && |Entity(w)| == 4
    ensures forall i :: 0 <= i < 4 ==> Entity(w)[i] != Gt && Entity(w)[i] != Lt && !IsBlank(Entity(w)[i])
  {
    FlatCons(Amp, Plains(w), InLink);
    FlatPlains(w, InLink);
    PlainsAt(w);
    FlatCons(item, [], InLink);
    assert [item] + [] == [item];
    assert item == Lt ==> "&" + w == LT + "";
    assert item == Gt ==> "&" + w == GT + "";
  }

  lemma EntitySpelled(items: seq<Item>, w: string)
    requires items != [] && items[0] == Amp && Spells(items[1..], w) && |w| == 3
    ensures items == Entity(w) + items[4..]
  {
    SpelledPlains(items[1..], w);
    assert items[1..][3..] == items[4..];
    assert items == [Amp] + items[1..];
  }

  lemma {:induction false} SpelledPlains(items: seq<Item>, w: string)
    requires Spells(items, w)
    ensures items == Plains(w) + items[|w|..]
  {
    if w != "" {
      SpelledPlains(items[1..], w[1..]);
      assert items[1..][|w| - 1..] == items[|w|..];
      assert items == [items[0]] + items[1..];
    } else {
      assert items[0..] == items;
    }
  }

  lemma SwapLooks(u: seq<Item>, a: seq<Item>, b: seq<Item>, v: seq<Item>)
    requires Flat(a, InLink) == Flat(b, InLink)
    ensures Flat(u + (a + v), InLink) == Flat(u + (b + v), InLink)
  {
    FlatAppend(a, v, InLink);
    FlatAppend(b, v, InLink);
    FlatAppend(u, a + v, InLink);
    FlatAppend(u, b + v, InLink);
  }

  /** What a twin of the inside of a link must be. */
  ghost predicate IsTwin(g: seq<Item>, g': seq<Item>, rest: string) {
    && g' != g && AllProper(g') && Flat(g', InLink) == Flat(g, InLink)
    && SchemeItems(g') > 0 && IsBody(g'[SchemeItems(g')..]) && Lexed(g', rest)
  }

  lemma {:induction false} FindLt(group: seq<Item>) returns (i: nat)
    requires HoldsAmbiguousLt(group)
    ensures i < |group| && AmbiguousLt(group[i..])
  {
    if AmbiguousLt(group) {
      i := 0;
      assert group[0..] == group;
    } else {
      i := FindLt(group[1..]);
      assert group[1..][i..] == group[i + 1..];
      i := i + 1;
    }
  }

  lemma SwapBody(u: seq<Item>, a: seq<Item>, b: seq<Item>, v: seq<Item>, p: nat)
    requires a != [] && b != [] && !a[0].Plain? && !b[0].Plain?
    requires p == SchemeItems(u + (a + v)) && NoGt((u + (a + v))[p..]) && IsBody((u + (a + v))[p..])
    requires forall i :: 0 <= i < |b| ==> b[i] != Gt && !IsBlank(b[i])
    ensures SchemeItems(u + (b + v)) == p <= |u| && IsBody((u + (b + v))[p..])
  {
    SchemeStops(u, a + v);
    SchemeStops(u, b + v);
    var body, body' := (u + (a + v))[p..], (u + (b + v))[p..];
    assert body == u[p..] + (a + v) && body' == u[p..] + (b + v);
    forall i | 0 <= i < |body'|
      ensures body'[i] != Gt && !IsBlank(body'[i])
    {
      if i >= |u| - p + |b| {
        assert body'[i] == v[i - (|u| - p) - |b|] == body[i - |b| + |a|];
      } else if i < |u| - p {
        assert body'[i] == body[i];
      } else {
        assert body'[i] == b[i - (|u| - p)];
      }
    }
  }

  lemma TextStartsWith(item: Item, items: seq<Item>, rest: string)
    requires item == Lt || item == Amp
    ensures Separates(Flat([item] + items, InMessage) + rest)
  {
    FlatCons(item, items, InMessage);
  }

  lemma {:induction false} NoLtLexed(items: seq<Item>, rest: string)
    requires forall i :: 0 <= i < |items| ==> items[i] != Lt
    ensures Lexed(items, rest)
  {
    if items != [] {
      NoLtLexed(items[1..], rest);
    }
  }

  lemma ProperSwap(u: seq<Item>, a: seq<Item>, b: seq<Item>, v: seq<Item>)
    requires AllProper(u + (a + v)) && AllProper(b)
    ensures AllProper(u + (b + v))
  {
    assert (u + (a + v))[..|u|] == u && (u + (a + v))[|u| + |a|..] == v;
    assert AllProper(u) && AllProper(v);
  }

  /** Everything but the reading in which the twin could differ from a group. */
  lemma SwapIsTwin(u: seq<Item>, a: seq<Item>, b: seq<Item>, v: seq<Item>, rest: string)
    requires var g := u + (a + v);
      AllProper(g) && SchemeItems(g) > 0 && IsBody(g[SchemeItems(g)..]) && NoGt(g[SchemeItems(g)..])
    requires a != [] && b != [] && !a[0].Plain? && !b[0].Plain? && |a| != |b|
    requires Flat(a, InLink) == Flat(b, InLink) && AllProper(b)
    requires forall i :: 0 <= i < |b| ==> b[i] != Gt && !IsBlank(b[i])
    requires Lexed(u + (b + v), rest)
    ensures IsTwin(u + (a + v), u + (b + v), rest)
  {
    ProperSwap(u, a, b, v);
    SwapLooks(u, a, b, v);
    SwapBody(u, a, b, v, SchemeItems(u + (a + v)));
  }

  lemma EntityFirst(v: seq<Item>, w: string, rest: string)
    ensures Separates(Flat(Entity(w) + v, InMessage) + rest)
  {
    assert Entity(w) + v == [Amp] + (Plains(w) + v);
    TextStartsWith(Amp, Plains(w) + v, rest);
  }

  lemma EntityLexed(u: seq<Item>, v: seq<Item>, rest: string)
    requires Lexed(u + ([Lt] + v), rest)
    ensures Lexed(u + (Entity("lt;") + v), rest)
  {
    var b := Entity("lt;");
    LexedJoin(u, [Lt] + v, rest);
    LexedJoin([Lt], v, rest);
    EntityLooks(Lt, "lt;");
    NoLtLexed(b, Flat(v, InMessage) + rest);
    LexedJoin(b, v, rest);
    TextStartsWith(Lt, v, rest);
    EntityFirst(v, "lt;", rest);
    LexedSwap(u, [Lt] + v, b + v, rest);
  }

  lemma BracketLexed(u: seq<Item>, v: seq<Item>, rest: string)
    requires Lexed(u + (Entity("lt;") + v), rest) && StartsWithGt(rest) && !IsMention(v)
    ensures Lexed(u + ([Lt] + v), rest)
  {
    var a := Entity("lt;");
    LexedJoin(u, a + v, rest);
    LexedJoin(a, v, rest);
    NotMentioned(v, rest);
    LexedOne(v, rest);
    TextStartsWith(Lt, v, rest);
    EntityFirst(v, "lt;", rest);
    LexedSwap(u, a + v, [Lt] + v, rest);
  }

  /** A bracket in a link may be written as an entity. */
  lemma LtTwin(u: seq<Item>, v: seq<Item>, rest: string)
    requires var g := u + ([Lt] + v);
      AllProper(g) && SchemeItems(g) > 0 && IsBody(g[SchemeItems(g)..]) && NoGt(g[SchemeItems(g)..]) && Lexed(g, rest)
    ensures IsTwin(u + ([Lt] + v), u + (Entity("lt;") + v), rest)
  {
    EntityLooks(Lt, "lt;");
    EntityLexed(u, v, rest);
    SwapIsTwin(u, [Lt], Entity("lt;"), v, rest);
  }

  /** Written as an entity it may be the bracket itself, unless that would make it a reference. */
  lemma EntityTwin(u: seq<Item>, v: seq<Item>, rest: string)
    requires var g := u + (Entity("lt;") + v);
      AllProper(g) && SchemeItems(g) > 0 && IsBody(g[SchemeItems(g)..]) && NoGt(g[SchemeItems(g)..]) && Lexed(g, rest)
    requires StartsWithGt(rest) && !IsMention(v)
    ensures IsTwin(u + (Entity("lt;") + v), u + ([Lt] + v), rest)
  {
    EntityLooks(Lt, "lt;");
    BracketLexed(u, v, rest);
    SwapIsTwin(u, Entity("lt;"), [Lt], v, rest);
  }

  lemma LexedOne(v: seq<Item>, rest: string)
    requires Lexed(v, rest) && MatchEscapedUser("<" + (Flat(v, InMessage) + rest)) == None
    ensures Lexed([Lt] + v, rest)
  {
    assert ([Lt] + v)[1..] == v;
    Associate("<", Flat(v, InMessage), rest);
  }

  /** What is no mention up to the bracket is none beyond it. */
  lemma NotMentioned(v: seq<Item>, rest: string)
    requires StartsWithGt(rest) && !IsMention(v)
    ensures MatchEscapedUser("<" + (Flat(v, InMessage) + rest)) == None
  {
    var t := Flat(v, InMessage);
    var s, whole := "<" + (t + ">"), "<" + (t + rest);
    if MatchEscapedUser(whole).Some? {
      var user := MatchEscapedUser(whole).value;
      EscapedUserMatches(whole, user);
      RefEndsAtGt(user.id, user.name, t, rest);
      ReferenceInFront(user.id, user.name, s);
    }
  }

  lemma RefEndsAtGt(id: string, name: string, t: string, rest: string)
    requires AllIn(id, IsIDChar) && AllIn(name, IsNameChar) && StartsWithGt(rest) && RefText(id, name) <= "<" + (t + rest)
    ensures RefText(id, name) <= "<" + (t + ">")
  {
    var r, s, whole := RefText(id, name), "<" + (t + ">"), "<" + (t + rest);
    RefTail(id, name);
    assert whole[|t| + 1] == '>';
    assert forall i :: 0 <= i < |r| ==> whole[i] == r[i];
    assert whole[..|t| + 2] == s;
    assert r == whole[..|r|] == s[..|r|];
  }

  // ---- a > right behind the scheme ----

  lemma SplitGroup(g: seq<Item>, i: nat)
    requires i < |g|
    ensures g == g[..i] + ([g[i]] + g[i + 1..])
  {
  }

  lemma SplitEntity(g: seq<Item>, i: nat, w: string)
    requires i < |g| && g[i] == Amp && Spells(g[i..][1..], w) && |w| == 3
    ensures i + 4 <= |g| && g == g[..i] + (Entity(w) + g[i..][4..])
  {
    EntitySpelled(g[i..], w);
    assert g == g[..i] + g[i..];
  }

  /** What is right behind the scheme may be swapped for anything that stays a body. */
  lemma SchemeSwap(h: seq<Item>, a: seq<Item>, b: seq<Item>, v: seq<Item>, rest: string)
    requires var g := h + (a + v); AllProper(g) && 0 < SchemeItems(g) == |h| && Lexed(g, rest)
    requires a != [] && b != [] && !a[0].Plain? && !b[0].Plain? && |a| != |b|
    requires Flat(a, InLink) == Flat(b, InLink) && AllProper(b) && IsBody(b + v)
    requires forall i :: 0 <= i < |b| ==> b[i] != Lt
    ensures IsTwin(h + (a + v), h + (b + v), rest)
  {
    ProperSwap(h, a, b, v);
    SwapLooks(h, a, b, v);
    SchemeStops(h, a + v);
    SchemeStops(h, b + v);
    assert (h + (b + v))[|h|..] == b + v;
    LexedJoin(h, a + v, rest);
    LexedJoin(a, v, rest);
    NoLtLexed(b, Flat(v, InMessage) + rest);
    LexedJoin(b, v, rest);
    SchemeHasNoLt(h);
    NoLtLexed(h, Flat(b + v, InMessage) + rest);
    LexedJoin(h, b + v, rest);
  }

  lemma {:induction false} SpelledIsPlain(items: seq<Item>, p: string)
    requires Spells(items, p)
    ensures forall i :: 0 <= i < |p| ==> items[i].Plain?
  {
    if p != "" {
      SpelledIsPlain(items[1..], p[1..]);
      assert forall i :: 1 <= i < |p| ==> items[i] == items[1..][i - 1];
    }
  }

  lemma SchemeHasNoLt(h: seq<Item>)
    requires 0 < SchemeItems(h) == |h|
    ensures forall i :: 0 <= i < |h| ==> h[i] != Lt
  {
    SpelledIsPlain(h, if Spells(h, "http://") then "http://" else "https://");
  }

  lemma GtTwin(g: seq<Item>, rest: string) returns (g': seq<Item>)
    requires AllProper(g) && SchemeItems(g) > 0 && IsBody(g[SchemeItems(g)..]) && Lexed(g, rest)
    requires AmbiguousGt(g[SchemeItems(g)..])
    ensures IsTwin(g, g', rest)
  {
    var p := SchemeItems(g);
    var h, body := g[..p], g[p..];
    EntityLooks(Gt, "gt;");
    assert body[0] == g[p];
    if body[0] == Gt {
      var v := body[1..];
      SplitGroup(g, p);
      assert v == g[p + 1..];
      EntityBody(v);
      SchemeSwap(h, [Gt], Entity("gt;"), v, rest);
      g' := h + (Entity("gt;") + v);
    } else {
      var v := body[4..];
      SplitEntity(g, p, "gt;");
      EntitySpelled(body, "gt;");
      BracketBody(v, body);
      SchemeSwap(h, Entity("gt;"), [Gt], v, rest);
      g' := h + ([Gt] + v);
    }
  }

  lemma EntityBody(v: seq<Item>)
    requires IsBody([Gt] + v)
    ensures IsBody(Entity("gt;") + v)
  {
    EntityLooks(Gt, "gt;");
    assert ([Gt] + v)[1..] == v;
    assert forall i :: 0 <= i < |v| ==> v[i] == ([Gt] + v)[i + 1];
  }

  lemma BracketBody(v: seq<Item>, body: seq<Item>)
    requires IsBody(body) && body == Entity("gt;") + v
    ensures IsBody([Gt] + v)
  {
    EntityLooks(Gt, "gt;");
    assert ([Gt] + v)[1..] == v && body[4..] == v;
    TailIsClean(body, 4);
  }

  lemma TailIsClean(body: seq<Item>, n: nat)
    requires IsBody(body) && 1 <= n <= |body|
    ensures NoGt(body[n..]) && forall i :: 0 <= i < |body[n..]| ==> !IsBlank(body[n..][i])
  {
    assert forall i :: n <= i < |body| ==> body[i] == body[1..][i - 1];
  }

  lemma GroupTwin(g: seq<Item>, rest: string) returns (g': seq<Item>)
    requires AllProper(g) && SchemeItems(g) > 0 && IsBody(g[SchemeItems(g)..]) && Lexed(g, rest) && StartsWithGt(rest)
    requires AmbiguousGroup(g)
    ensures IsTwin(g, g', rest)
  {
    if AmbiguousGt(g[SchemeItems(g)..]) {
      g' := GtTwin(g, rest);
    } else {
      var body := g[SchemeItems(g)..];
      assert forall i :: 1 <= i < |body| ==> body[i] == body[1..][i - 1];
      var i := FindLt(g);
      assert g[i..][0] == g[i];
      if g[i] == Lt {
        SplitGroup(g, i);
        LtTwin(g[..i], g[i + 1..], rest);
        g' := g[..i] + (Entity("lt;") + g[i + 1..]);
      } else {
        SplitEntity(g, i, "lt;");
        EntityTwin(g[..i], g[i..][4..], rest);
        g' := g[..i] + ([Lt] + g[i..][4..]);
      }
    }
  }

  // ---- the twin of a message ----

  /** b is items with the inside of one link swapped for its twin: y and y' are what stands behind its bracket. */
  ghost predicate Twins(items: seq<Item>, b: seq<Item>, x: seq<Item>, y: seq<Item>, y': seq<Item>) {
    && items == x + ([Lt] + y) && b == x + ([Lt] + y') && CloseItems(y, false).Some?
    && b != items && AllProper(b) && Lexed(b, "") && LinkedText(b) == LinkedText(items)
  }

  lemma LtFirst(y: seq<Item>)
    ensures Separates(Flat([Lt] + y, InMessage) + "")
  {
    TextStartsWith(Lt, y, "");
  }

  lemma TwinLexed(items: seq<Item>, x: seq<Item>, y: seq<Item>, y': seq<Item>)
    requires Lexed(items, "") && items == x + ([Lt] + y) && Lexed([Lt] + y', "")
    ensures Lexed(x + ([Lt] + y'), "")
  {
    LtFirst(y);
    LtFirst(y');
    LexedSwap(x, [Lt] + y, [Lt] + y', "");
  }

  lemma ItemJoin(item: Item, x: seq<Item>, y: seq<Item>)
    ensures [item] + (x + y) == ([item] + x) + y && ([item] + y)[1..] == y
  {
  }

  lemma TwinOpensNoLink(item: Item, x: seq<Item>, y: seq<Item>, y': seq<Item>)
    requires LinkItems([item] + (x + ([Lt] + y))) == None && CloseItems(y, false).Some?
    ensures LinkItems([item] + (x + ([Lt] + y'))) == None
  {
    ItemJoin(item, [], x + ([Lt] + y));
    ItemJoin(item, [], x + ([Lt] + y'));
    if item == Lt {
      NoLinkInFront(x, y, y');
    }
  }

  lemma TwinLooks(item: Item, a: seq<Item>, b: seq<Item>)
    requires Proper(item) && LinkItems([item] + a) == None && LinkItems([item] + b) == None
    requires LinkedText(a) == LinkedText(b)
    ensures LinkedText([item] + a) == LinkedText([item] + b)
  {
    ItemJoin(item, [], a);
    ItemJoin(item, [], b);
    NoLinkLooks([item] + a);
    NoLinkLooks([item] + b);
  }

  lemma TwinBehindItemReads(item: Item, a: seq<Item>, b: seq<Item>, x: seq<Item>, y: seq<Item>, y': seq<Item>)
    requires Proper(item) && Lexed([item] + a, "") && LinkItems([item] + a) == None && Lexed([Lt] + y', "")
    requires a == x + ([Lt] + y) && b == x + ([Lt] + y') && CloseItems(y, false).Some?
    requires LinkedText(a) == LinkedText(b)
    ensures Lexed([item] + b, "") && LinkedText([item] + a) == LinkedText([item] + b)
  {
    ItemJoin(item, x, [Lt] + y);
    ItemJoin(item, x, [Lt] + y');
    TwinLexed([item] + a, [item] + x, y, y');
    TwinOpensNoLink(item, x, y, y');
    TwinLooks(item, a, b);
  }

  lemma TwinBehindItem(item: Item, a: seq<Item>, b: seq<Item>, x: seq<Item>, y: seq<Item>, y': seq<Item>)
    requires Proper(item) && Lexed([item] + a, "") && LinkItems([item] + a) == None
    requires Twins(a, b, x, y, y')
    ensures Twins([item] + a, [item] + b, [item] + x, y, y')
  {
    LexedJoin(x, [Lt] + y', "");
    TwinBehindItemReads(item, a, b, x, y, y');
    ItemJoin(item, x, [Lt] + y);
    ItemJoin(item, x, [Lt] + y');
    ItemJoin(item, [], a);
    ItemJoin(item, [], b);
  }

  lemma LinkMade(group: seq<Item>, rest: seq<Item>)
    requires var p := SchemeItems(group); p > 0 && IsBody(group[p..])
    ensures LinkedText([Lt] + (group + ([Gt] + rest))) == "<" + (Flat(group, InLink) + (">" + LinkedText(rest)))
  {
    var items := [Lt] + (group + ([Gt] + rest));
    MakeLink(group, rest);
    assert items[1..1 + |group|] == group && items[|group| + 2..] == rest;
    LinkedTextStep(items, |group|, group, rest);
  }

  lemma LinkBracketLexed(group: seq<Item>, rest: seq<Item>)
    requires SchemeItems(group) > 0 && Lexed(group + ([Gt] + rest), "")
    ensures Lexed([Lt] + (group + ([Gt] + rest)), "")
  {
    var w := group + ([Gt] + rest);
    FlatCons(Lt, w, InMessage);
    assert group[0] == Plain('h') && w == [Plain('h')] + w[1..];
    FlatCons(Plain('h'), w[1..], InMessage);
    var s := "<" + (Flat(w, InMessage) + "");
    assert s[1] == 'h';
    NoUserMark(s);
    LexedOne(w, "");
  }

  lemma LexedLinkRest(group: seq<Item>, rest: seq<Item>)
    requires Lexed(group, ">" + Flat(rest, InMessage)) && Lexed(rest, "")
    ensures Lexed(group + ([Gt] + rest), "")
  {
    var tail := [Gt] + rest;
    FlatCons(Gt, rest, InMessage);
    assert Flat(tail, InMessage) + "" == ">" + Flat(rest, InMessage);
    NoLtLexed([Gt], Flat(rest, InMessage) + "");
    LexedJoin([Gt], rest, "");
    LexedJoin(group, tail, "");
  }

  lemma GroupTwins(group: seq<Item>, group': seq<Item>, rest: seq<Item>)
    requires SchemeItems(group) > 0 && IsBody(group[SchemeItems(group)..])
    requires IsTwin(group, group', ">" + Flat(rest, InMessage)) && AllProper(rest) && Lexed(rest, "")
    ensures Twins([Lt] + (group + ([Gt] + rest)), [Lt] + (group' + ([Gt] + rest)), [],
                  group + ([Gt] + rest), group' + ([Gt] + rest))
  {
    LinkHasNoBlank(group, SchemeItems(group));
    CloseThere(group, rest);
    LinkMade(group, rest);
    LinkMade(group', rest);
    LexedLinkRest(group', rest);
    LinkBracketLexed(group', rest);
    DifferentGroups(group, group', rest);
    ProperLink(group', rest);
    NothingInFront([Lt] + (group + ([Gt] + rest)));
    NothingInFront([Lt] + (group' + ([Gt] + rest)));
  }

  lemma NothingInFront(y: seq<Item>)
    ensures [] + y == y
  {
  }

  lemma TwinOfLink(items: seq<Item>, k: nat) returns (b: seq<Item>, y: seq<Item>, y': seq<Item>)
    requires AllProper(items) && Lexed(items, "") && LinkItems(items) == Some(k) && AmbiguousGroup(items[1..1 + k])
    ensures Twins(items, b, [], y, y')
  {
    var p := LinkShape(items, k);
    var group, rest := items[1..1 + k], items[k + 2..];
    LinkLexed(items, k);
    var group' := GroupTwin(group, ">" + Flat(rest, InMessage));
    GroupTwins(group, group', rest);
    y, y' := group + ([Gt] + rest), group' + ([Gt] + rest);
    b := [Lt] + y';
  }

  lemma SchemeNotBlank(group: seq<Item>, p: nat)
    requires p == SchemeItems(group) && p > 0
    ensures forall i :: 0 <= i < p ==> !IsBlank(group[i])
  {
    SpelledNotBlank(group, if Spells(group, "http://") then "http://" else "https://");
  }

  lemma LinkHasNoBlank(group: seq<Item>, p: nat)
    requires p == SchemeItems(group) && p > 0 && IsBody(group[p..])
    ensures forall i :: 0 <= i < |group| ==> !IsBlank(group[i])
  {
    SchemeNotBlank(group, p);
    assert forall i :: p <= i < |group| ==> group[i] == group[p..][i - p];
  }

  lemma {:induction false} SpelledNotBlank(items: seq<Item>, h: string)
    requires Spells(items, h) && NoSpace(h)
    ensures forall i :: 0 <= i < |h| ==> !IsBlank(items[i])
  {
    if h != "" {
      SpelledNotBlank(items[1..], h[1..]);
      assert forall i :: 1 <= i < |h| ==> items[i] == items[1..][i - 1];
    }
  }

  lemma DifferentGroups(g: seq<Item>, g': seq<Item>, rest: seq<Item>)
    requires g != g'
    ensures [Lt] + (g + ([Gt] + rest)) != [Lt] + (g' + ([Gt] + rest))
  {
    var a, b, t := g + ([Gt] + rest), g' + ([Gt] + rest), [Gt] + rest;
    assert ([Lt] + a)[1..] == a && ([Lt] + b)[1..] == b;
    assert a[..|a| - |t|] == g && b[..|b| - |t|] == g';
  }

  lemma ProperLink(group: seq<Item>, rest: seq<Item>)
    requires AllProper(group) && AllProper(rest)
    ensures AllProper([Lt] + (group + ([Gt] + rest)))
  {
  }

  lemma TwinBehindLink(items: seq<Item>, k: nat, b: seq<Item>, x: seq<Item>, y: seq<Item>, y': seq<Item>)
    requires AllProper(items) && Lexed(items, "") && LinkItems(items) == Some(k) && Twins(items[k + 2..], b, x, y, y')
    ensures Twins(items, [Lt] + (items[1..1 + k] + ([Gt] + b)), [Lt] + (items[1..1 + k] + ([Gt] + x)), y, y')
  {
    var p := LinkShape(items, k);
    var group, rest := items[1..1 + k], items[k + 2..];
    var x1 := [Lt] + (group + ([Gt] + x));
    LinkJoin(group, x, [Lt] + y);
    LinkJoin(group, x, [Lt] + y');
    LexedJoin(x, [Lt] + y', "");
    TwinLexed(items, x1, y, y');
    LinkMade(group, rest);
    LinkMade(group, b);
    ProperLink(group, b);
    DifferentRests(group, rest, b);
  }

  lemma LinkJoin(group: seq<Item>, x: seq<Item>, y: seq<Item>)
    ensures [Lt] + (group + ([Gt] + (x + y))) == ([Lt] + (group + ([Gt] + x))) + y
  {
  }

  lemma DifferentRests(group: seq<Item>, a: seq<Item>, b: seq<Item>)
    requires a != b
    ensures [Lt] + (group + ([Gt] + a)) != [Lt] + (group + ([Gt] + b))
  {
    var n := |group| + 2;
    assert ([Lt] + (group + ([Gt] + a)))[n..] == a && ([Lt] + (group + ([Gt] + b)))[n..] == b;
  }

  lemma AmbiguousParts(items: seq<Item>)
    requires Ambiguous(items)
    ensures items != [] && match LinkItems(items)
      case Some(k) => AmbiguousGroup(items[1..1 + k]) || Ambiguous(items[k + 2..])
      case None => Ambiguous(items[1..])
  {
  }

  lemma HeadAndTail(items: seq<Item>)
    requires items != []
    ensures items == [items[0]] + items[1..]
  {
  }

  lemma {:induction false} TwinOf(items: seq<Item>) returns (b: seq<Item>, x: seq<Item>, y: seq<Item>, y': seq<Item>)
    requires AllProper(items) && Lexed(items, "") && Ambiguous(items)
    ensures Twins(items, b, x, y, y')
    decreases |items|
  {
    AmbiguousParts(items);
    match LinkItems(items) {
      case Some(k) =>
        if AmbiguousGroup(items[1..1 + k]) {
          x := [];
          b, y, y' := TwinOfLink(items, k);
        } else {
          LinkLexed(items, k);
          b, x, y, y' := TwinOf(items[k + 2..]);
          TwinBehindLink(items, k, b, x, y, y');
          b, x := [Lt] + (items[1..1 + k] + ([Gt] + b)), [Lt] + (items[1..1 + k] + ([Gt] + x));
        }
      case None =>
        b, x, y, y' := TwinOf(items[1..]);
        HeadAndTail(items);
        TwinBehindItem(items[0], items[1..], b, x, y, y');
        b, x := [items[0]] + b, [items[0]] + x;
    }
  }

  // ---- the result ----

  /** Another message looks the same escaped. */
  ghost predicate Collides(s: string) {
    exists t :: t != s && Escaped(t) == Escaped(s)
  }

  lemma AmbiguousCollides(s: string)
    requires Ambiguous(Lex(s))
    ensures Collides(s)
  {
    LexIsProper(s);
    LexIsLexed(s);
    var b, x, y, y' := TwinOf(Lex(s));
    var t := Flat(b, InMessage);
    LexOfFlat(b);
    EscapedShowsItems(s);
    EscapedShowsItems(t);
    assert t != s && Escaped(t) == Escaped(s);
  }

  lemma UnambiguousIsAlone(s: string, t: string)
    requires !Ambiguous(Lex(s)) && Escaped(t) == Escaped(s)
    ensures t == s
  {
    LexIsProper(s);
    LexIsProper(t);
    LexIsLexed(t);
    EscapedShowsItems(s);
    EscapedShowsItems(t);
    SameItems(Lex(s), Lex(t));
    LexIsFaithful(s);
    LexIsFaithful(t);
  }

  /**
   * A message shares its escaped form with another one exactly if some link of it holds a < or a &lt; that no
   * mention follows up to the closing bracket, or goes on with > or &gt; right behind its scheme.
   */
  lemma CollidesIff(s: string)
    ensures Collides(s) <==> Ambiguous(Lex(s))
  {
    if Ambiguous(Lex(s)) {
      AmbiguousCollides(s);
    } else if t :| t != s && Escaped(t) == Escaped(s) {
      UnambiguousIsAlone(s, t);
    }
  }

  // ---- an entity that nothing else can be ----

  lemma LinkNotAmbiguous(h: string, inside: seq<Item>)
    requires IsScheme(h) && inside != [] && CanBeLinked(inside)
    requires !AmbiguousGt(inside) && !HoldsAmbiguousLt(Plains(h) + inside)
    ensures !Ambiguous(LinkTo(h, inside, []))
  {
    var items, group := LinkTo(h, inside, []), Plains(h) + inside;
    LinkToIsLink(h, inside, []);
    LinkToParts(h, inside, []);
    SchemeOfPlains(h, inside);
    assert group[|h|..] == inside;
    AmbiguousStep(items, |group|, group);
  }

  lemma AmbiguousStep(items: seq<Item>, k: nat, group: seq<Item>)
    requires LinkItems(items) == Some(k) && items[1..1 + k] == group && items[k + 2..] == [] && !AmbiguousGroup(group)
    ensures !Ambiguous(items)
  {
  }

  lemma LexOfAmp(t: string, e: string)
    requires AllPlain(e)
    ensures Lex(['&'] + (e + t)) == [Amp] + (Plains(e) + Lex(t))
  {
    LexOfPlains(e, t);
    LexOfChar('&', e + t);
  }

  lemma LexOfClosing()
    ensures Lex(['>'] + "") == [Gt] + []
  {
    LexOfChar('>', "");
  }

  lemma RegroupItems(a: seq<Item>, b: seq<Item>, c: seq<Item>)
    ensures a + ([Amp] + (b + c)) == (a + ([Amp] + b)) + c
  {
  }

  lemma LexOfEntityText(v: string, e: string)
    requires AllPlain(v) && AllPlain(e)
    ensures Lex(v + (['&'] + (e + (['>'] + "")))) == (Plains(v) + ([Amp] + Plains(e))) + ([Gt] + [])
  {
    LexOfClosing();
    LexOfAmp(['>'] + "", e);
    LexOfPlains(v, ['&'] + (e + (['>'] + "")));
    RegroupItems(Plains(v), Plains(e), [Gt] + []);
  }

  lemma LexOfEntityLink(h: string, v: string, e: string)
    requires IsScheme(h) && AllPlain(v) && AllPlain(e)
    ensures Lex(['<'] + (h + (v + (['&'] + (e + (['>'] + "")))))) == LinkTo(h, Plains(v) + ([Amp] + Plains(e)), [])
  {
    LexOfEntityText(v, e);
    LexOfLink(h, v + (['&'] + (e + (['>'] + ""))), Plains(v) + ([Amp] + Plains(e)), []);
  }

  lemma EntityInside(v: string, e: string)
    requires v != "" && AllPlain(v) && NoSpace(v) && e != "" && NoSpace(e)
    ensures var inside := Plains(v) + ([Amp] + Plains(e));
      inside != [] && inside[0].Plain? && CanBeLinked(inside)
  {
    PlainsAt(v);
    PlainsAt(e);
  }

  lemma {:induction false} PlainsNotAmbiguous(p: string, rest: seq<Item>)
    ensures HoldsAmbiguousLt(Plains(p) + rest) <==> HoldsAmbiguousLt(rest)
  {
    if p == "" {
      assert Plains(p) + rest == rest;
    } else {
      PlainsCons(p, rest);
      assert (Plains(p) + rest)[1..] == Plains(p[1..]) + rest;
      PlainsNotAmbiguous(p[1..], rest);
    }
  }

  lemma EntityNotAmbiguous(h: string, v: string, e: string)
    requires e != "" && e[0] != 'l'
    ensures !HoldsAmbiguousLt(Plains(h) + (Plains(v) + ([Amp] + Plains(e))))
  {
    var b := [Amp] + Plains(e);
    PlainsNotAmbiguous(h, Plains(v) + b);
    PlainsNotAmbiguous(v, b);
    PlainsNotAmbiguous(e, []);
    assert Plains(e) + [] == Plains(e) && b[1..] == Plains(e);
    assert b[1..][0] == Plain(e[0]);
  }

  /** &gt; elsewhere in a link stands for itself only: a > would have closed the link. */
  lemma GtInsideIsAlone(h: string, v: string, w: string)
    requires IsScheme(h) && v != "" && AllPlain(v) && NoSpace(v) && AllPlain(w) && NoSpace(w)
    ensures !Collides(['<'] + (h + (v + (['&'] + (("gt;" + w) + (['>'] + ""))))))
  {
    var e := "gt;" + w;
    var s := ['<'] + (h + (v + (['&'] + (e + (['>'] + "")))));
    assert e[0] == 'g' && AllPlain(e) && NoSpace(e);
    EntityInside(v, e);
    EntityNotAmbiguous(h, v, e);
    LinkNotAmbiguous(h, Plains(v) + ([Amp] + Plains(e)));
    LexOfEntityLink(h, v, e);
    CollidesIff(s);
  }
}
