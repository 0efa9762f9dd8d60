/** The user references found in an escaped message are those of the message. */
module ReferenceLaws {
  import opened Text
  import opened Escape
  import opened EscapeLaws
  import opened LinkLaws
  import opened Glyphs
  import opened References

  // ---- the references of a text, found character by character ----

  /** What the user patterns find at every place where a word begins; `begins` says whether one may begin here. */
  function Scan(s: string, begins: bool): seq<UserReference> {
    if s == "" then []
    else if IsSpace(s[0]) then Scan(s[1..], true)
    else (if begins then RefsUpTo(UserPattern, s, 2) else []) + Scan(s[1..], false)
  }

  lemma SpanInPrefix(s: string, n: nat, kind: char -> bool)
    requires n <= |s| && (n < |s| ==> !kind(s[n]))
    ensures Span(s[..n], kind) == Span(s, kind) <= n
  {
    SpanOfRun(s[..n], Span(s, kind), kind);
  }

  lemma NameInWord(u: string, n: nat)
    requires n <= |u| && (n < |u| ==> IsSpace(u[n]))
    ensures MatchName(u[..n], ">") == MatchName(u, ">")
  {
    var m := Span(u, IsNameChar);
    SpanInPrefix(u, n, IsNameChar);
    assert ">" <= u[m..] <==> m < |u| && u[m] == '>';
    assert ">" <= u[..n][m..] <==> m < n && u[m] == '>';
  }

  lemma DropOfTake(t: string, n: nat, k: nat)
    requires k <= n <= |t|
    ensures t[..n][k..] == t[k..][..n - k]
  {
  }

  lemma IdThenNameInWord(t: string, n: nat, m: nat)
    requires n <= |t| && (n < |t| ==> IsSpace(t[n]))
    requires 0 < m < n && t[m] == '|' && m == Span(t, IsIDChar) == Span(t[..n], IsIDChar)
    ensures MatchIdName(t[..n], ">") == MatchIdName(t, ">")
  {
    var w, u := t[..n], t[m + 1..];
    var k := MatchName(u, ">");
    DropOfTake(t, n, m + 1);
    NameInWord(u, n - m - 1);
    IdThenName(t, m, u, ">", k);
    IdThenName(w, m, u[..n - m - 1], ">", k);
  }

  lemma IdNameInWord(t: string, n: nat)
    requires n <= |t| && (n < |t| ==> IsSpace(t[n]))
    ensures MatchIdName(t[..n], ">") == MatchIdName(t, ">")
  {
    var m := Span(t, IsIDChar);
    SpanInPrefix(t, n, IsIDChar);
    if 0 < m < n && t[m] == '|' {
      IdThenNameInWord(t, n, m);
    } else {
      NoIdThenName(t, m, ">");
      NoIdThenName(t[..n], m, ">");
    }
  }

  lemma PlainUserInWord(s: string, n: nat)
    requires 0 < n <= |s| && (n < |s| ==> IsSpace(s[n]))
    ensures MatchPlainUser(s[..n]) == MatchPlainUser(s)
  {
    var t := s[1..];
    SpanInPrefix(t, n - 1, IsNameChar);
    assert s[..n][1..] == t[..n - 1] && s[..n][0] == s[0];
    assert t[..n - 1][..Span(t, IsNameChar)] == t[..Span(t, IsNameChar)];
  }

  lemma TakeOfTake(t: string, n: nat, k: nat)
    requires k <= n <= |t|
    ensures t[..n][..k] == t[..k]
  {
  }

  lemma UserBodyParts(t: string, i: nat, m: nat)
    requires MatchIdName(t, ">") == Some((i, m))
    ensures i + 1 + m <= |t| && MatchUserBody(t) == Some(UserReference(t[..i], t[i + 1..][..m]))
  {
  }

  lemma UserBodyInWord(t: string, n: nat)
    requires n <= |t| && (n < |t| ==> IsSpace(t[n]))
    ensures MatchUserBody(t[..n]) == MatchUserBody(t)
  {
    IdNameInWord(t, n);
    match MatchIdName(t, ">") {
      case Some((i, m)) =>
        UserBodyParts(t, i, m);
        UserBodyParts(t[..n], i, m);
        TakeOfTake(t, n, i);
        DropOfTake(t, n, i + 1);
        TakeOfTake(t[i + 1..], n - i - 1, m);
      case None =>
    }
  }

  lemma NoUserMark(s: string)
    requires |s| < 2 || s[1] != '@'
    ensures MatchEscapedUser(s) == None
  {
  }

  lemma MarkInPrefix(w: string, s: string)
    requires |w| >= 2 && w <= s
    ensures "<@" <= w <==> "<@" <= s
  {
    assert w[..2] == s[..2];
  }

  lemma SameBody(w: string, s: string)
    requires |w| >= 2 && w <= s && MatchUserBody(w[2..]) == MatchUserBody(s[2..])
    ensures MatchEscapedUser(w) == MatchEscapedUser(s)
  {
    MarkInPrefix(w, s);
  }

  lemma EscapedUserInWord(s: string, n: nat)
    requires 0 < n <= |s| && (n < |s| ==> IsSpace(s[n]))
    ensures MatchEscapedUser(s[..n]) == MatchEscapedUser(s)
  {
    if n >= 2 {
      DropOfTake(s, n, 2);
      UserBodyInWord(s[2..], n - 2);
      SameBody(s[..n], s);
    } else {
      NoUserMark(s);
      NoUserMark(s[..n]);
    }
  }

  /** No pattern for users looks beyond the word it starts in. */
  lemma RefsInWord(s: string, n: nat)
    requires 0 < n <= |s| && (n < |s| ==> IsSpace(s[n]))
    ensures RefsUpTo(UserPattern, s[..n], 2) == RefsUpTo(UserPattern, s, 2)
  {
    PlainUserInWord(s, n);
    EscapedUserInWord(s, n);
    assert RefsUpTo(UserPattern, s[..n], 1) == RefsUpTo(UserPattern, s, 1);
  }

  lemma {:induction false} ScanRun(s: string, n: nat)
    requires n <= |s| && forall i :: 0 <= i < n ==> !IsSpace(s[i])
    ensures Scan(s, false) == Scan(s[n..], false)
  {
    if n > 0 {
      ScanRun(s[1..], n - 1);
      assert s[1..][n - 1..] == s[n..];
    } else {
      assert s[0..] == s;
    }
  }

  lemma {:induction false} UserRefsByScan(s: string)
    ensures UserRefs(s) == Scan(s, true)
    decreases |s|
  {
    if s == "" {
    } else if IsSpace(s[0]) {
      UserRefsByScan(s[1..]);
    } else {
      var n := Span(s, IsWordChar);
      assert Words(s)[0] == s[..n] && Words(s)[1..] == Words(s[n..]);
      UserRefsByScan(s[n..]);
      RefsInWord(s, n);
      ScanRun(s[1..], n - 1);
      assert s[1..][n - 1..] == s[n..];
    }
  }

  // ---- the message and the escaped message ----

  /** A bare opening bracket begins no reference; `escaped` says in which of the two texts. */
  predicate Fits(gs: seq<Glyph>, escaped: bool) {
    gs == []
    || ((gs[0].item == Lt ==> MatchEscapedUser(Reads(gs, escaped)) == None) && Fits(gs[1..], escaped))
  }

  /** Both texts start with the same name. */
  predicate SameNames(s: string, t: string) {
    var n := Span(s, IsNameChar);
    n == Span(t, IsNameChar) && s[..n] == t[..n]
  }

  lemma NameCons(c: char, s: string)
    ensures var n, r := Span(s, IsNameChar), [c] + s;
      Span(r, IsNameChar) == (if IsNameChar(c) then 1 + n else 0) && r[..1 + n] == [c] + s[..n]
  {
    assert ([c] + s)[1..] == s;
  }

  lemma SameNamesCons(c: char, s: string, t: string)
    requires SameNames(s, t)
    ensures SameNames([c] + s, [c] + t)
  {
    NameCons(c, s);
    NameCons(c, t);
  }

  lemma NoNames(s: string, t: string)
    requires s != "" && t != "" && !IsPlain(s[0]) && !IsPlain(t[0])
    ensures SameNames(s, t)
  {
  }

  lemma {:induction false} SameNamesShown(gs: seq<Glyph>)
    requires AllGlyphs(gs)
    ensures SameNames(Reads(gs, false), Reads(gs, true))
  {
    if gs != [] {
      FirstGlyph(gs, false);
      FirstGlyph(gs, true);
      if gs[0].item.Plain? {
        SameNamesShown(gs[1..]);
        SameNamesCons(gs[0].item.c, Reads(gs[1..], false), Reads(gs[1..], true));
      } else {
        NoNames(Reads(gs, false), Reads(gs, true));
      }
    }
  }

  lemma ReferenceMatches(id: string, name: string, rest: string)
    requires AllIn(id, IsIDChar) && AllIn(name, IsNameChar)
    ensures MatchEscapedUser(RefText(id, name) + rest) == Some(UserReference(id, name))
  {
    var t := IdName(id, name, ">" + rest);
    RefTextAppend(id, name, rest);
    assert ("<@" + t)[2..] == t;
    MatchIdNameForm(id, name, ">", rest);
    IdNameSlices(id, name, ">" + rest);
  }

  lemma IdNameSlices(id: string, name: string, rest: string)
    ensures IdName(id, name, rest)[..|id|] == id
    ensures |IdName(id, name, rest)| >= |id| + 1 + |name| && IdName(id, name, rest)[|id| + 1..][..|name|] == name
  {
    var t := IdName(id, name, rest);
    assert t[|id|..] == "|" + (name + rest) && t[|id| + 1..] == name + rest;
  }

  lemma NoUserHere(s: string)
    requires s != ""
    ensures s[0] != '@' ==> MatchPlainUser(s) == None
    ensures s[0] != '<' ==> MatchEscapedUser(s) == None
  {
  }

  lemma SamePlainUser(s: string, t: string)
    requires s != "" && t != "" && s[0] == t[0] == '@'
    requires SameNames(s[1..], t[1..])
    ensures MatchPlainUser(s) == MatchPlainUser(t)
  {
  }

  lemma SameMatches(gs: seq<Glyph>)
    requires gs != [] && AllGlyphs(gs) && Fits(gs, false) && Fits(gs, true)
    ensures MatchPlainUser(Reads(gs, false)) == MatchPlainUser(Reads(gs, true))
    ensures MatchEscapedUser(Reads(gs, false)) == MatchEscapedUser(Reads(gs, true))
  {
    FirstGlyph(gs, false);
    FirstGlyph(gs, true);
    NoUserHere(Reads(gs, false));
    NoUserHere(Reads(gs, true));
    match gs[0].item {
      case Plain(c) =>
        if c == '@' {
          SameNamesShown(gs[1..]);
          SamePlainUser(Reads(gs, false), Reads(gs, true));
        }
      case Ref(id, name) =>
        ReferenceMatches(id, name, Reads(gs[1..], false));
        ReferenceMatches(id, name, Reads(gs[1..], true));
      case _ =>
    }
  }

  lemma SameRefs(s: string, t: string)
    requires MatchPlainUser(s) == MatchPlainUser(t) && MatchEscapedUser(s) == MatchEscapedUser(t)
    ensures RefsUpTo(UserPattern, s, 2) == RefsUpTo(UserPattern, t, 2)
  {
    assert RefsUpTo(UserPattern, s, 1) == RefsUpTo(UserPattern, t, 1);
  }

  predicate Unbroken(x: string) {
    forall i :: 0 <= i < |x| ==> !IsSpace(x[i])
  }

  lemma ScanPiece(x: string, rest: string, begins: bool)
    requires x != "" && Unbroken(x)
    ensures Scan(x + rest, begins) == (if begins then RefsUpTo(UserPattern, x + rest, 2) else []) + Scan(rest, false)
  {
    var e := x + rest;
    ScanRun(e[1..], |x| - 1);
    assert e[1..][|x| - 1..] == rest;
  }

  predicate IsSpaceGlyph(g: Glyph) { g.item.Plain? && IsSpace(g.item.c) }

  lemma GlyphUnbroken(g: Glyph, escaped: bool)
    requires IsGlyph(g) && !IsSpaceGlyph(g)
    ensures Shown(g, escaped) != "" && Unbroken(Shown(g, escaped))
  {
  }

  /** Both texts hold the same references. */
  lemma {:induction false} SameScan(gs: seq<Glyph>, begins: bool)
    requires AllGlyphs(gs) && Fits(gs, false) && Fits(gs, true)
    ensures Scan(Reads(gs, false), begins) == Scan(Reads(gs, true), begins)
  {
    if gs != [] {
      FirstGlyph(gs, false);
      FirstGlyph(gs, true);
      if IsSpaceGlyph(gs[0]) {
        SameScan(gs[1..], true);
      } else {
        GlyphUnbroken(gs[0], false);
        GlyphUnbroken(gs[0], true);
        ScanPiece(Shown(gs[0], false), Reads(gs[1..], false), begins);
        ScanPiece(Shown(gs[0], true), Reads(gs[1..], true), begins);
        SameScan(gs[1..], false);
        SameMatches(gs);
        SameRefs(Reads(gs, false), Reads(gs, true));
      }
    }
  }

  // ---- where the brackets are bare ----

  lemma FitsCons(g: Glyph, gs: seq<Glyph>, escaped: bool)
    requires Fits(gs, escaped)
    requires g.item == Lt ==> MatchEscapedUser(Shown(g, escaped) + Reads(gs, escaped)) == None
    ensures Fits([g] + gs, escaped)
  {
    assert ([g] + gs)[1..] == gs;
  }

  /** Lexing takes every reference there is. */
  lemma {:induction false} SourceFits(s: string, gs: seq<Glyph>)
    requires |gs| == |Lex(s)| && forall i :: 0 <= i < |gs| ==> gs[i].item == Lex(s)[i]
    ensures Reads(gs, false) == s && Fits(gs, false)
    decreases |s|
  {
    if s != "" {
      FirstIsThere(s);
      SourceFits(Behind(s), gs[1..]);
      assert Reads(gs, false) == Source(First(s)) + Behind(s);
    }
  }

  lemma EscapedBracketFits(g: Glyph, rest: string)
    requires g.item == Lt && !g.kept
    ensures MatchEscapedUser(Shown(g, true) + rest) == None
  {
    assert (LT + rest)[0] == LT[0];
    NoUserHere(LT + rest);
  }

  lemma InsideCons(items: seq<Item>, rest: seq<Glyph>)
    requires items != []
    ensures InsideLink(items) + rest == [InsideLink(items)[0]] + (InsideLink(items[1..]) + rest)
  {
  }

  lemma {:induction false} InsideFits(items: seq<Item>, rest: seq<Glyph>)
    requires Fits(rest, true)
    ensures Fits(InsideLink(items) + rest, true)
  {
    if items == [] {
      assert InsideLink(items) + rest == rest;
    } else {
      var g := InsideLink(items)[0];
      var tail := InsideLink(items[1..]) + rest;
      InsideFits(items[1..], rest);
      if g.item == Lt {
        EscapedBracketFits(g, Reads(tail, true));
      }
      FitsCons(g, tail, true);
      InsideCons(items, rest);
    }
  }

  /** A restored link begins no reference. */
  lemma LinkBeginsNoReference(group: seq<Item>, rest: string)
    requires SchemeItems(group) > 0
    ensures MatchEscapedUser("<" + (Flat(group, InLink) + rest)) == None
  {
    var e := "<" + (Flat(group, InLink) + rest);
    assert group[0] == Plain('h');
    assert e[1] == 'h';
    NoUserMark(e);
  }

  lemma {:induction false} SpellsTake(items: seq<Item>, p: string, n: nat)
    requires |p| <= n <= |items|
    ensures Spells(items, p) <==> Spells(items[..n], p)
  {
    if p != "" {
      assert items[..n][1..] == items[1..][..n - 1];
      SpellsTake(items[1..], p[1..], n - 1);
    }
  }

  lemma GroupHasScheme(items: seq<Item>, k: nat)
    requires LinkItems(items) == Some(k)
    ensures SchemeItems(items[1..1 + k]) > 0
  {
    var tail := items[1..];
    assert tail[..k] == items[1..1 + k];
    if Spells(tail, "http://") {
      SpellsTake(tail, "http://", k);
    } else {
      SpellsTake(tail, "https://", k);
    }
  }

  lemma LinkFits(items: seq<Item>, k: nat, rest: seq<Glyph>)
    requires LinkItems(items) == Some(k) && Fits(rest, true)
    ensures Fits([Glyph(Lt, true)] + (InsideLink(items[1..1 + k]) + ([Glyph(Gt, true)] + rest)), true)
  {
    var group, tail := items[1..1 + k], [Glyph(Gt, true)] + rest;
    FitsCons(Glyph(Gt, true), rest, true);
    InsideFits(group, tail);
    ReadsAppend(InsideLink(group), tail, true);
    InsideReads(group);
    GroupHasScheme(items, k);
    LinkBeginsNoReference(group, Reads(tail, true));
    FitsCons(Glyph(Lt, true), InsideLink(group) + tail, true);
  }

  lemma {:induction false} EscapedFits(items: seq<Item>)
    ensures Fits(GlyphsOf(items), true)
    decreases |items|
  {
    if items != [] {
      match LinkItems(items) {
        case Some(k) =>
          EscapedFits(items[k + 2..]);
          LinkFits(items, k, GlyphsOf(items[k + 2..]));
        case None =>
          var g := Glyph(items[0], items[0].Plain? || items[0].Ref?);
          EscapedFits(items[1..]);
          if items[0] == Lt {
            EscapedBracketFits(g, Reads(GlyphsOf(items[1..]), true));
          }
          FitsCons(g, GlyphsOf(items[1..]), true);
      }
    }
  }

  /**
   * For every message: the user references found in the escaped message are those of the message,
   * in the same order and as often.
   */
  lemma EscapeKeepsUserReferences(s: string)
    ensures UserRefs(Escaped(s)) == UserRefs(s)
  {
    var gs := MessageGlyphs(s);
    MessageReads(s);
    GlyphsShowItems(Lex(s));
    SourceFits(s, gs);
    EscapedFits(Lex(s));
    SameScan(gs, true);
    UserRefsByScan(s);
    UserRefsByScan(Escaped(s));
  }
}
