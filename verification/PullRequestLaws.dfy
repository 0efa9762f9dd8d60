/** Which pull request references escaping keeps: exactly those it writes no entity into. */
module PullRequestLaws {
  import opened Text
  import opened Escape
  import opened EscapeLaws
  import opened LinkLaws
  import opened Glyphs
  import opened References
  import opened ReferenceLaws
  import RoundTrips

  // ---- cutting a text between glyphs ----

  predicate AllKept(gs: seq<Glyph>) {
    forall i :: 0 <= i < |gs| ==> gs[i].kept
  }

  lemma CutGlyphs(gs: seq<Glyph>, n: nat, escaped: bool)
    requires n <= |gs|
    ensures var s, k := Reads(gs, escaped), |Reads(gs[..n], escaped)|;
      k <= |s| && s[..k] == Reads(gs[..n], escaped) && s[k..] == Reads(gs[n..], escaped)
  {
    ReadsAppend(gs[..n], gs[n..], escaped);
    assert gs == gs[..n] + gs[n..];
  }

  lemma {:induction false} KeptReads(gs: seq<Glyph>)
    requires AllKept(gs)
    ensures Reads(gs, true) == Reads(gs, false)
  {
    if gs != [] {
      KeptReads(gs[1..]);
    }
  }

  lemma ShownLengths(g: Glyph)
    requires IsGlyph(g)
    ensures 1 <= |Shown(g, false)| && (g.kept ==> Shown(g, true) == Shown(g, false))
    ensures !g.kept ==> |Shown(g, false)| == 1 && |Shown(g, true)| >= 4
  {
  }

  /** Escaping makes a text longer exactly if it changes something in it. */
  lemma {:induction false} ReadsLengths(gs: seq<Glyph>)
    requires AllGlyphs(gs)
    ensures |gs| <= |Reads(gs, false)| <= |Reads(gs, true)|
    ensures |Reads(gs, false)| == |Reads(gs, true)| <==> AllKept(gs)
  {
    if gs != [] {
      ShownLengths(gs[0]);
      ReadsLengths(gs[1..]);
    }
  }

  /** How many glyphs in a row are plain characters of the kind. */
  function PlainRun(gs: seq<Glyph>, kind: char -> bool): (n: nat)
    ensures n <= |gs| && (n < |gs| ==> !(gs[n].item.Plain? && kind(gs[n].item.c)))
    ensures forall i :: 0 <= i < n ==> gs[i].item.Plain? && kind(gs[i].item.c)
  {
    if gs == [] || !gs[0].item.Plain? || !kind(gs[0].item.c) then 0 else 1 + PlainRun(gs[1..], kind)
  }

  lemma {:induction false} SpanIsRun(gs: seq<Glyph>, kind: char -> bool, escaped: bool)
    requires AllGlyphs(gs) && KeepsPlain(kind)
    ensures Span(Reads(gs, escaped), kind) == PlainRun(gs, kind)
  {
    if gs != [] {
      FirstGlyph(gs, escaped);
      if gs[0].item.Plain? {
        SpanIsRun(gs[1..], kind, escaped);
      } else {
        assert Reads(gs, escaped)[0] in "&<>";
      }
    }
  }

  predicate PlainGlyphs(gs: seq<Glyph>, n: nat) {
    n <= |gs| && forall i :: 0 <= i < n ==> gs[i].item.Plain?
  }

  lemma {:induction false} PlainReads(gs: seq<Glyph>, escaped: bool)
    requires AllGlyphs(gs) && PlainGlyphs(gs, |gs|)
    ensures |Reads(gs, escaped)| == |gs| && Reads(gs, escaped) == Reads(gs, false)
  {
    if gs != [] {
      assert Shown(gs[0], escaped) == [gs[0].item.c];
      PlainReads(gs[1..], escaped);
    }
  }

  /** Plain characters stand where they stood. */
  lemma PlainCut(gs: seq<Glyph>, n: nat, escaped: bool)
    requires AllGlyphs(gs) && PlainGlyphs(gs, n)
    ensures n <= |Reads(gs, escaped)| && Reads(gs, escaped)[n..] == Reads(gs[n..], escaped)
    ensures Reads(gs, escaped)[..n] == Reads(gs[..n], false)
  {
    CutGlyphs(gs, n, escaped);
    PlainReads(gs[..n], escaped);
  }

  /** The glyphs start with the plain characters of p. */
  predicate Starts(gs: seq<Glyph>, p: string)
    ensures Starts(gs, p) ==> PlainGlyphs(gs, |p|)
  {
    p == "" || (gs != [] && gs[0].item == Plain(p[0]) && Starts(gs[1..], p[1..]))
  }

  lemma {:induction false} StartsIff(gs: seq<Glyph>, p: string, escaped: bool)
    requires AllGlyphs(gs) && AllPlain(p)
    ensures p <= Reads(gs, escaped) <==> Starts(gs, p)
  {
    if p != "" && gs != [] {
      FirstGlyph(gs, escaped);
      PrefixCons(p, Reads(gs, escaped));
      if gs[0].item == Plain(p[0]) {
        StartsIff(gs[1..], p[1..], escaped);
      }
    }
  }

  lemma HeadIs(gs: seq<Glyph>, c: char, escaped: bool)
    requires AllGlyphs(gs) && IsPlain(c)
    ensures Reads(gs, escaped) != "" && Reads(gs, escaped)[0] == c <==> gs != [] && gs[0].item == Plain(c)
    ensures Reads(gs, escaped) == "" <==> gs == []
  {
    if gs != [] {
      FirstGlyph(gs, escaped);
    }
  }

  // ---- references written the short way ----

  function RepositoryRun(gs: seq<Glyph>): (b: Option<nat>)
    ensures b.Some? ==> b.value <= |gs|
  {
    var a := PlainRun(gs, IsNameChar);
    if a == 0 || a == |gs| || gs[a].item != Plain('/') then None
    else
      var n := PlainRun(gs[a + 1..], IsNameChar);
      if n == 0 then None else Some(a + 1 + n)
  }

  lemma RepositoryIsPlain(gs: seq<Glyph>)
    requires RepositoryRun(gs).Some?
    ensures PlainGlyphs(gs, RepositoryRun(gs).value)
  {
    var a := PlainRun(gs, IsNameChar);
    assert forall i :: a < i < |gs| ==> gs[i] == gs[a + 1..][i - a - 1];
  }

  lemma AllGlyphsBehind(gs: seq<Glyph>, n: nat)
    requires AllGlyphs(gs) && n <= |gs|
    ensures AllGlyphs(gs[n..]) && AllGlyphs(gs[..n])
  {
  }

  lemma NoSlashNoRepository(w: string, a: nat)
    requires a == Span(w, IsNameChar) && (a == 0 || a == |w| || w[a] != '/')
    ensures MatchRepository(w) == None
  {
  }

  lemma RepositoryParts(w: string, a: nat, u: string, n: nat)
    requires 0 < a == Span(w, IsNameChar) < |w| && w[a] == '/' && w[a + 1..] == u && n == Span(u, IsNameChar)
    ensures MatchRepository(w) == if n == 0 then None else Some(a + 1 + n)
  {
  }

  /** The plain character behind n plain ones, and what follows it. */
  lemma NextIs(gs: seq<Glyph>, n: nat, c: char, escaped: bool)
    requires AllGlyphs(gs) && PlainGlyphs(gs, n) && IsPlain(c)
    ensures var w := Reads(gs, escaped);
      && (n < |w| && w[n] == c <==> n < |gs| && gs[n].item == Plain(c))
      && (n < |w| && w[n] == c ==> w[n + 1..] == Reads(gs[n + 1..], escaped))
  {
    PlainCut(gs, n, escaped);
    HeadIs(gs[n..], c, escaped);
    if n < |gs| {
      assert gs[n..][0] == gs[n];
      if gs[n].item == Plain(c) {
        PlainCut(gs, n + 1, escaped);
      }
    }
  }

  lemma RepositoryBehind(gs: seq<Glyph>, a: nat, tail: seq<Glyph>, n: nat, escaped: bool)
    requires AllGlyphs(gs) && 0 < a == PlainRun(gs, IsNameChar) < |gs| && gs[a].item == Plain('/')
    requires tail == gs[a + 1..] && n == PlainRun(tail, IsNameChar)
    ensures MatchRepository(Reads(gs, escaped)) == if n == 0 then None else Some(a + 1 + n)
  {
    SpanIsRun(gs, IsNameChar, escaped);
    NextIs(gs, a, '/', escaped);
    SpanIsRun(tail, IsNameChar, escaped);
    RepositoryParts(Reads(gs, escaped), a, Reads(tail, escaped), n);
  }

  lemma RepositoryRunParts(gs: seq<Glyph>, a: nat, tail: seq<Glyph>, n: nat)
    requires 0 < a == PlainRun(gs, IsNameChar) < |gs| && gs[a].item == Plain('/')
    requires tail == gs[a + 1..] && n == PlainRun(tail, IsNameChar)
    ensures RepositoryRun(gs) == if n == 0 then None else Some(a + 1 + n)
  {
  }

  lemma NoRepository(gs: seq<Glyph>, a: nat, escaped: bool)
    requires AllGlyphs(gs) && a == PlainRun(gs, IsNameChar) && (a == 0 || a == |gs| || gs[a].item != Plain('/'))
    ensures MatchRepository(Reads(gs, escaped)) == None
  {
    SpanIsRun(gs, IsNameChar, escaped);
    NextIs(gs, a, '/', escaped);
    NoSlashNoRepository(Reads(gs, escaped), a);
  }

  lemma RepositoryIsRun(gs: seq<Glyph>, escaped: bool)
    requires AllGlyphs(gs)
    ensures MatchRepository(Reads(gs, escaped)) == RepositoryRun(gs)
  {
    var a := PlainRun(gs, IsNameChar);
    if a == 0 || a == |gs| {
      NoRepository(gs, a, escaped);
    } else if gs[a].item == Plain('/') {
      var tail := gs[a + 1..];
      var n := PlainRun(tail, IsNameChar);
      RepositoryBehind(gs, a, tail, n, escaped);
      RepositoryRunParts(gs, a, tail, n);
    } else {
      NoRepository(gs, a, escaped);
    }
  }

  /** What may stand behind the number of a short reference: nothing, or one character that is no letter. */
  predicate MayEnd(x: string) {
    x == "" || (|x| == 1 && !IsLetter(x[0]))
  }

  /** An entity is more than one character. */
  lemma MayEndEscaped(gs: seq<Glyph>)
    requires AllGlyphs(gs) && MayEnd(Reads(gs, true))
    ensures AllKept(gs)
  {
    ReadsLengths(gs);
    if gs != [] {
      ShownLengths(gs[0]);
      assert |gs| == 1;
    }
  }

  /** The number of digits behind the # at the front. */
  function NumberRun(gs: seq<Glyph>): (n: nat)
    ensures n > 0 ==> PlainGlyphs(gs, 1 + n)
  {
    if gs == [] || gs[0].item != Plain('#') then 0
    else
      var n := PlainRun(gs[1..], IsDigit);
      assert forall i :: 0 < i < 1 + n ==> gs[i] == gs[1..][i - 1];
      n
  }

  lemma NoNumberText(t: string)
    requires t == "" || t[0] != '#' || Span(t[1..], IsDigit) == 0
    ensures MatchNumber(t) == None
  {
  }

  lemma NumberText(t: string, n: nat, x: string)
    requires t != "" && t[0] == '#' && 0 < n == Span(t[1..], IsDigit) && 1 + n <= |t| && t[1 + n..] == x
    ensures MatchNumber(t) == if MayEnd(x) then Some(n) else None
  {
  }

  lemma NumberRunText(gs: seq<Glyph>, n: nat, escaped: bool)
    requires AllGlyphs(gs) && gs != [] && gs[0].item == Plain('#') && n == PlainRun(gs[1..], IsDigit)
    ensures var t := Reads(gs, escaped);
      t != "" && t[0] == '#' && Span(t[1..], IsDigit) == n
  {
    HeadIs(gs, '#', escaped);
    PlainCut(gs, 1, escaped);
    SpanIsRun(gs[1..], IsDigit, escaped);
  }

  lemma NumberIsRun(gs: seq<Glyph>, escaped: bool)
    requires AllGlyphs(gs)
    ensures var n := NumberRun(gs);
      MatchNumber(Reads(gs, escaped)) ==
      if n > 0 && MayEnd(Reads(gs[1 + n..], escaped)) then Some(n) else None
  {
    var t, n := Reads(gs, escaped), NumberRun(gs);
    if gs != [] && gs[0].item == Plain('#') {
      NumberRunText(gs, n, escaped);
      if n > 0 {
        PlainCut(gs, 1 + n, escaped);
        NumberText(t, n, Reads(gs[1 + n..], escaped));
      } else {
        NoNumberText(t);
      }
    } else {
      HeadIs(gs, '#', escaped);
      NoNumberText(t);
    }
  }

  lemma {:induction false} KeptFrom(gs: seq<Glyph>, n: nat)
    requires AllGlyphs(gs) && PlainGlyphs(gs, n) && AllKept(gs[n..])
    ensures AllKept(gs)
  {
    forall i | 0 <= i < |gs|
      ensures gs[i].kept
    {
      if i >= n {
        assert gs[i] == gs[n..][i - n];
      }
    }
  }

  /** A short reference in the escaped text is one of the message, unchanged. */
  lemma ShortEscaped(gs: seq<Glyph>)
    requires AllGlyphs(gs)
    ensures MatchShortPullRequest(Reads(gs, true)) ==
      if AllKept(gs) then MatchShortPullRequest(Reads(gs, false)) else None
  {
    if AllKept(gs) {
      KeptReads(gs);
    } else {
      RepositoryIsRun(gs, true);
      if RepositoryRun(gs).Some? {
        RepositoryIsPlain(gs);
        ShortTailKept(gs, RepositoryRun(gs).value);
      }
    }
  }

  lemma NoShortNumber(w: string, b: nat)
    requires MatchRepository(w) == Some(b) && MatchNumber(w[b..]) == None
    ensures MatchShortPullRequest(w) == None
  {
  }

  lemma NumberKept(h: seq<Glyph>)
    requires AllGlyphs(h) && MatchNumber(Reads(h, true)).Some?
    ensures AllKept(h)
  {
    var n := NumberRun(h);
    NumberIsRun(h, true);
    MayEndEscaped(h[1 + n..]);
    KeptFrom(h, 1 + n);
  }

  lemma ShortTailKept(gs: seq<Glyph>, b: nat)
    requires AllGlyphs(gs) && MatchRepository(Reads(gs, true)) == Some(b) && PlainGlyphs(gs, b)
    ensures !AllKept(gs) ==> MatchShortPullRequest(Reads(gs, true)) == None
  {
    PlainCut(gs, b, true);
    if MatchNumber(Reads(gs[b..], true)).Some? {
      NumberKept(gs[b..]);
      KeptFrom(gs, b);
    } else {
      NoShortNumber(Reads(gs, true), b);
    }
  }

  // ---- addresses: up to the repository ----

  /** What is left of the text once p has been skipped, if it is there. */
  lemma AfterIs(gs: seq<Glyph>, p: string, escaped: bool)
    requires AllGlyphs(gs) && AllPlain(p)
    ensures After(p, Reads(gs, escaped)) == if Starts(gs, p) then Some(Reads(gs[|p|..], escaped)) else None
  {
    StartsIff(gs, p, escaped);
    if Starts(gs, p) {
      PlainCut(gs, |p|, escaped);
    }
  }

  function SkipOptional(gs: seq<Glyph>, p: string): seq<Glyph> {
    if Starts(gs, p) then gs[|p|..] else gs
  }

  lemma AfterOptionalIs(gs: seq<Glyph>, p: string, escaped: bool)
    requires AllGlyphs(gs) && AllPlain(p)
    ensures AfterOptional(p, Reads(gs, escaped)) == Reads(SkipOptional(gs, p), escaped)
  {
    AfterIs(gs, p, escaped);
  }

  /** Any character and com/: the glyphs behind them. */
  function BehindDomain(h: seq<Glyph>): (tail: Option<seq<Glyph>>)
    ensures tail.Some? ==> |h| == |tail.value| + 5 && h[5..] == tail.value
  {
    if h == [] || h[0].item.Ref? || !Starts(h[1..], "com/") then None else Some(h[5..])
  }

  lemma DomainIs(h: seq<Glyph>, escaped: bool)
    requires AllGlyphs(h)
    ensures AfterDomain(Reads(h, escaped)) ==
      match BehindDomain(h)
      case Some(tail) => if escaped && !h[0].kept then None else Some(Reads(tail, escaped))
      case None => None
  {
    if h != [] {
      var x, v := Shown(h[0], escaped), Reads(h, escaped);
      FirstGlyph(h, escaped);
      if !h[0].item.Ref? && (escaped ==> h[0].kept) {
        assert v[1..] == Reads(h[1..], escaped);
        AfterIs(h[1..], "com/", escaped);
        if Starts(h[1..], "com/") {
          assert h[1..][4..] == h[5..];
        }
      } else {
        SecondChar(h[0], escaped);
        assert v[1..][0] == x[1];
        NotAfter("com/", v[1..]);
      }
    }
  }

  lemma NotAfter(p: string, w: string)
    requires p != "" && w != "" && p[0] != w[0]
    ensures After(p, w) == None
  {
  }

  lemma SecondChar(g: Glyph, escaped: bool)
    requires IsGlyph(g) && (g.item.Ref? || (escaped && !g.kept))
    ensures |Shown(g, escaped)| > 1 && Shown(g, escaped)[1] in "@lga"
  {
  }

  /** The glyphs behind the scheme and the host, where Domain is what stands behind github. */
  function BehindHost(gs: seq<Glyph>): (tail: Option<seq<Glyph>>)
  {
    if !Starts(gs, "http") then None
    else
      var v := SkipOptional(gs[4..], "s");
      if Starts(v, "://github") then BehindDomain(v[9..]) else None
  }

  lemma StartsKept(gs: seq<Glyph>, p: string)
    requires AllGlyphs(gs) && Starts(gs, p)
    ensures AllKept(gs[..|p|])
  {
  }

  /** The part of gs in front of its tail is shown the same in both texts. */
  predicate FrontKept(gs: seq<Glyph>, tail: seq<Glyph>) {
    |tail| <= |gs| && gs[|gs| - |tail|..] == tail && AllKept(gs[..|gs| - |tail|])
  }

  lemma FrontKeptJoin(gs: seq<Glyph>, k: nat, mid: seq<Glyph>, tail: seq<Glyph>)
    requires k <= |gs| && gs[k..] == mid && AllKept(gs[..k]) && |tail| <= |mid| && mid[|mid| - |tail|..] == tail
    ensures gs[|gs| - |tail|..] == tail && (FrontKept(gs, tail) <==> FrontKept(mid, tail))
  {
    var n := |gs| - |tail|;
    assert gs[n..] == mid[n - k..];
    assert gs[..n] == gs[..k] + mid[..n - k];
  }

  lemma DomainFront(h: seq<Glyph>)
    requires AllGlyphs(h) && BehindDomain(h).Some?
    ensures FrontKept(h, BehindDomain(h).value) <==> h[0].kept
  {
    StartsKept(h[1..], "com/");
    assert h[..5] == [h[0]] + h[1..][..4];
  }

  lemma NoHostText(w: string)
    requires After("http", w) == None
    ensures AfterHost(w) == None
  {
  }

  lemma HostText(w: string, u: string, v: Option<string>)
    requires After("http", w) == Some(u) && After("://github", AfterOptional("s", u)) == v
    ensures AfterHost(w) == match v case Some(d) => AfterDomain(d) case None => None
  {
  }

  lemma HostBehind(gs: seq<Glyph>, u: seq<Glyph>, v: seq<Glyph>, escaped: bool)
    requires AllGlyphs(gs) && Starts(gs, "http") && u == gs[4..] && v == SkipOptional(u, "s")
    ensures AllGlyphs(v) && AfterHost(Reads(gs, escaped)) ==
      if Starts(v, "://github") then AfterDomain(Reads(v[9..], escaped)) else None
  {
    AfterIs(gs, "http", escaped);
    SchemeBehind(u, v, escaped);
    HostText(Reads(gs, escaped), Reads(u, escaped), After("://github", Reads(v, escaped)));
  }

  lemma SchemeBehind(u: seq<Glyph>, v: seq<Glyph>, escaped: bool)
    requires AllGlyphs(u) && v == SkipOptional(u, "s")
    ensures AllGlyphs(v) && AfterOptional("s", Reads(u, escaped)) == Reads(v, escaped)
    ensures After("://github", Reads(v, escaped)) == if Starts(v, "://github") then Some(Reads(v[9..], escaped)) else None
  {
    AfterOptionalIs(u, "s", escaped);
    AfterIs(v, "://github", escaped);
  }

  lemma BehindHostParts(gs: seq<Glyph>, u: seq<Glyph>, v: seq<Glyph>)
    requires Starts(gs, "http") && u == gs[4..] && v == SkipOptional(u, "s")
    ensures BehindHost(gs) == if Starts(v, "://github") then BehindDomain(v[9..]) else None
  {
  }

  lemma HostIs(gs: seq<Glyph>, escaped: bool)
    requires AllGlyphs(gs)
    ensures AfterHost(Reads(gs, escaped)) ==
      match BehindHost(gs)
      case Some(tail) => if escaped && !FrontKept(gs, tail) then None else Some(Reads(tail, escaped))
      case None => None
    ensures BehindHost(gs).Some? ==> IsTail(BehindHost(gs).value, gs)
  {
    if Starts(gs, "http") {
      var u := gs[4..];
      var v := SkipOptional(u, "s");
      HostBehind(gs, u, v, escaped);
      BehindHostParts(gs, u, v);
      if Starts(v, "://github") {
        DomainIs(v[9..], escaped);
        if BehindDomain(v[9..]).Some? {
          HostFront(gs, u, v, v[9..], BehindDomain(v[9..]).value);
        }
      }
    } else {
      AfterIs(gs, "http", escaped);
      NoHostText(Reads(gs, escaped));
    }
  }

  predicate IsTail(tail: seq<Glyph>, gs: seq<Glyph>) {
    |tail| <= |gs| && gs[|gs| - |tail|..] == tail
  }

  lemma HostFront(gs: seq<Glyph>, u: seq<Glyph>, v: seq<Glyph>, h: seq<Glyph>, tail: seq<Glyph>)
    requires AllGlyphs(gs) && Starts(gs, "http") && u == gs[4..] && v == SkipOptional(u, "s")
    requires Starts(v, "://github") && h == v[9..] && BehindDomain(h) == Some(tail)
    ensures IsTail(tail, gs) && (FrontKept(gs, tail) <==> h[0].kept)
  {
    DomainFront(h);
    StartsKept(v, "://github");
    FrontKeptJoin(v, 9, h, tail);
    if Starts(u, "s") {
      StartsKept(u, "s");
      FrontKeptJoin(u, 1, v, tail);
    }
    StartsKept(gs, "http");
    FrontKeptJoin(gs, 4, u, tail);
  }

  function SkipBracket(gs: seq<Glyph>): seq<Glyph> {
    if gs != [] && gs[0].item == Lt then gs[1..] else gs
  }

  /** The glyphs behind an address of a page, up to the repository. */
  function BehindGitHub(gs: seq<Glyph>): Option<seq<Glyph>> {
    BehindHost(SkipBracket(gs))
  }

  lemma AfterBracketIs(gs: seq<Glyph>, escaped: bool)
    requires AllGlyphs(gs) && gs != [] && gs[0].item == Lt && (escaped ==> gs[0].kept)
    ensures AfterOptional("<", Reads(gs, escaped)) == Reads(gs[1..], escaped)
  {
    FirstGlyph(gs, escaped);
  }

  lemma NoHost(w: string)
    requires w == "" || w[0] != 'h'
    ensures AfterHost(w) == None
  {
    if w != "" {
      NotAfter("http", w);
    }
  }

  lemma NoBracket(gs: seq<Glyph>, escaped: bool)
    requires AllGlyphs(gs) && (gs == [] || gs[0].item != Lt || (escaped && !gs[0].kept))
    ensures AfterGitHub(Reads(gs, escaped)) ==
      if gs != [] && gs[0].item == Lt then None else AfterHost(Reads(gs, escaped))
  {
    var w := Reads(gs, escaped);
    if gs != [] {
      FirstGlyph(gs, escaped);
      if gs[0].item.Ref? {
        SecondChar(gs[0], escaped);
        NoHost(w);
        NoHost(w[1..]);
      } else if gs[0].item == Lt {
        NoHost(w);
      }
    }
  }

  lemma GitHubIs(gs: seq<Glyph>, escaped: bool)
    requires AllGlyphs(gs)
    ensures AfterGitHub(Reads(gs, escaped)) ==
      match BehindGitHub(gs)
      case Some(tail) => if escaped && !FrontKept(gs, tail) then None else Some(Reads(tail, escaped))
      case None => None
    ensures BehindGitHub(gs).Some? ==> IsTail(BehindGitHub(gs).value, gs)
  {
    HostIs(SkipBracket(gs), escaped);
    if gs != [] && gs[0].item == Lt {
      var mid := gs[1..];
      if BehindHost(mid).Some? {
        BracketFront(gs, mid, BehindHost(mid).value);
      }
      if escaped && !gs[0].kept {
        NoBracket(gs, escaped);
      } else {
        AfterBracketIs(gs, escaped);
      }
    } else {
      NoBracket(gs, escaped);
    }
  }

  lemma BracketFront(gs: seq<Glyph>, mid: seq<Glyph>, tail: seq<Glyph>)
    requires gs != [] && gs[1..] == mid && IsTail(tail, mid)
    ensures IsTail(tail, gs) && (FrontKept(gs, tail) <==> gs[0].kept && FrontKept(mid, tail))
  {
    var n := |gs| - |tail|;
    assert gs[n..] == mid[n - 1..];
    assert gs[..n] == [gs[0]] + mid[..n - 1];
  }

  // ---- addresses: the pull suffix ----

  /** What may stand behind the number of an address. */
  predicate Closes(item: Item) {
    item == Plain('?') || item == Plain('#') || item == Gt
  }

  /** The glyphs start with /pull/, a number, and one of ?, #, > or nothing. */
  predicate PullRun(h: seq<Glyph>) {
    Starts(h, "/pull/") &&
    var x := BehindNumber(h);
    |x| < |h| - 6 && (x == [] || Closes(x[0].item))
  }

  /** What follows the number. */
  function BehindNumber(h: seq<Glyph>): (x: seq<Glyph>)
    requires |h| >= 6
    ensures |x| <= |h| - 6 && h[|h| - |x|..] == x
  {
    var d := h[6..];
    var n := PlainRun(d, IsDigit);
    assert d[n..] == h[|h| - |d[n..]|..];
    d[n..]
  }

  function Number(h: seq<Glyph>): string
    requires |h| >= 6
  {
    Reads(h[6..][..PlainRun(h[6..], IsDigit)], false)
  }

  predicate CloserKept(h: seq<Glyph>)
    requires |h| >= 6
  {
    BehindNumber(h) == [] || BehindNumber(h)[0].kept
  }

  lemma CloserIs(x: seq<Glyph>, escaped: bool)
    requires AllGlyphs(x)
    ensures var r := Reads(x, escaped);
      (r == "" <==> x == []) && (r != "" ==> (r[0] in "?#>" <==> Closes(x[0].item) && (escaped ==> x[0].kept)))
  {
    if x != [] {
      FirstGlyph(x, escaped);
    }
  }

  lemma NumberBehind(h: seq<Glyph>, escaped: bool)
    requires AllGlyphs(h) && Starts(h, "/pull/")
    ensures var r, n := Reads(h, escaped), PlainRun(h[6..], IsDigit);
      && |r| >= 6 + n && Span(r[6..], IsDigit) == n
      && r[6..][..n] == Number(h) && r[6 + n..] == Reads(BehindNumber(h), escaped)
  {
    var r, d := Reads(h, escaped), h[6..];
    PlainCut(h, 6, escaped);
    SpanIsRun(d, IsDigit, escaped);
    PlainCut(d, PlainRun(d, IsDigit), escaped);
  }

  lemma PullParts(r: string, n: nat, x: string)
    requires "/pull/" <= r && n == Span(r[6..], IsDigit) && 6 + n <= |r| && r[6 + n..] == x
    ensures PullSuffix(r) <==> n > 0 && (x == "" || x[0] in "?#>")
  {
  }

  lemma PullIs(h: seq<Glyph>, escaped: bool)
    requires AllGlyphs(h)
    ensures PullSuffix(Reads(h, escaped)) <==> PullRun(h) && (escaped ==> CloserKept(h))
  {
    var r := Reads(h, escaped);
    StartsIff(h, "/pull/", escaped);
    if Starts(h, "/pull/") {
      NumberBehind(h, escaped);
      PullParts(r, PlainRun(h[6..], IsDigit), Reads(BehindNumber(h), escaped));
      CloserIs(BehindNumber(h), escaped);
    }
  }

  predicate NoSlashInside(x: string) {
    x != "" && forall i :: 1 <= i < |x| ==> x[i] != '/'
  }

  lemma GlyphHasNoSlash(g: Glyph, escaped: bool)
    requires IsGlyph(g)
    ensures NoSlashInside(Shown(g, escaped)) && (Shown(g, escaped)[0] == '/' <==> g.item == Plain('/'))
  {
    GlyphText(g, escaped);
  }

  /** How far into the text the first n glyphs reach. */
  function Reach(h: seq<Glyph>, n: nat, escaped: bool): nat
    requires n <= |h|
  {
    |Reads(h[..n], escaped)|
  }

  lemma ReachCons(h: seq<Glyph>, n: nat, escaped: bool)
    requires n < |h|
    ensures Reach(h, n + 1, escaped) == |Shown(h[0], escaped)| + Reach(h[1..], n, escaped)
  {
    ReadsCons(h[0], h[1..][..n], escaped);
    assert [h[0]] + h[1..][..n] == h[..n + 1];
  }

  // ---- addresses: the slash in the repository ----

  predicate InnerSlash(q: seq<Glyph>) {
    exists i :: 1 <= i < |q| - 1 && q[i].item == Plain('/')
  }

  lemma {:induction false} SlashAt(q: seq<Glyph>, p: nat, escaped: bool) returns (i: nat)
    requires AllGlyphs(q) && p < |Reads(q, escaped)| && Reads(q, escaped)[p] == '/'
    ensures i < |q| && q[i].item == Plain('/') && p == Reach(q, i, escaped)
  {
    var x, rest := Shown(q[0], escaped), Reads(q[1..], escaped);
    GlyphHasNoSlash(q[0], escaped);
    if p == 0 {
      i := 0;
    } else {
      assert p >= |x|;
      assert rest[p - |x|] == '/';
      i := SlashAt(q[1..], p - |x|, escaped);
      ReachCons(q, i, escaped);
      i := i + 1;
    }
  }

  lemma LastReach(q: seq<Glyph>, i: nat, escaped: bool)
    requires AllGlyphs(q) && i == |q| - 1
    ensures |Reads(q, escaped)| == Reach(q, i, escaped) + |Shown(q[i], escaped)|
  {
    CutGlyphs(q, i, escaped);
    assert q[i..] == [q[i]];
    ReadsCons(q[i], [], escaped);
    assert [q[i]] + [] == [q[i]];
  }

  lemma ReachLengths(q: seq<Glyph>, i: nat, escaped: bool)
    requires AllGlyphs(q) && i <= |q|
    ensures i <= Reach(q, i, escaped) && Reach(q, i, escaped) + |q| - i <= |Reads(q, escaped)|
    ensures i == 0 ==> Reach(q, i, escaped) == 0
  {
    CutGlyphs(q, i, escaped);
    ReadsLengths(q[..i]);
    ReadsLengths(q[i..]);
  }

  lemma ReachBounds(q: seq<Glyph>, i: nat, escaped: bool)
    requires AllGlyphs(q) && i < |q|
    ensures i <= Reach(q, i, escaped) && Reach(q, i, escaped) + |q| - i <= |Reads(q, escaped)|
    ensures i == 0 ==> Reach(q, i, escaped) == 0
    ensures i == |q| - 1 ==> |Reads(q, escaped)| == Reach(q, i, escaped) + |Shown(q[i], escaped)|
    ensures Reads(q, escaped)[Reach(q, i, escaped)] == Shown(q[i], escaped)[0]
  {
    ReachLengths(q, i, escaped);
    CutGlyphs(q, i, escaped);
    FirstGlyph(q[i..], escaped);
    if i == |q| - 1 {
      LastReach(q, i, escaped);
    }
  }

  /** The slash between owner and repository is where it was. */
  lemma InnerSlashIs(q: seq<Glyph>, escaped: bool)
    requires AllGlyphs(q)
    ensures HasInnerSlash(Reads(q, escaped)) <==> InnerSlash(q)
  {
    var u := Reads(q, escaped);
    if InnerSlash(q) {
      var i :| 1 <= i < |q| - 1 && q[i].item == Plain('/');
      ReachBounds(q, i, escaped);
      assert u[Reach(q, i, escaped)] == '/';
    }
    if HasInnerSlash(u) {
      var p :| 1 <= p < |u| - 1 && u[p] == '/';
      var i := SlashAt(q, p, escaped);
      ReachBounds(q, i, escaped);
      assert 1 <= i < |q| - 1 && q[i].item == Plain('/');
    }
  }

  // ---- addresses: the last pull suffix ----

  predicate PullHere(h: seq<Glyph>, t: nat, escaped: bool)
    requires t <= |h|
  {
    PullRun(h[t..]) && (escaped ==> CloserKept(h[t..]))
  }

  lemma PullAt(h: seq<Glyph>, t: nat, escaped: bool)
    requires AllGlyphs(h) && t <= |h|
    ensures Reach(h, t, escaped) <= |Reads(h, escaped)|
    ensures PullSuffix(Reads(h, escaped)[Reach(h, t, escaped)..]) <==> PullHere(h, t, escaped)
  {
    CutGlyphs(h, t, escaped);
    PullIs(h[t..], escaped);
  }

  /** t is the place of the last pull suffix among the glyphs. */
  ghost predicate IsLast(h: seq<Glyph>, t: nat, escaped: bool) {
    t < |h| && PullHere(h, t, escaped) && forall u :: t < u < |h| ==> !PullHere(h, u, escaped)
  }

  lemma {:induction false} FindLast(p: nat -> bool, u: nat, n: nat) returns (t: nat)
    requires u < n && p(u)
    ensures u <= t < n && p(t) && forall v :: t < v < n ==> !p(v)
  {
    if p(n - 1) {
      t := n - 1;
    } else {
      t := FindLast(p, u, n - 1);
    }
  }

  lemma LastFrom(h: seq<Glyph>, u: nat, escaped: bool) returns (t: nat)
    requires u < |h| && PullHere(h, u, escaped)
    ensures u <= t && IsLast(h, t, escaped)
  {
    var here := (v: nat) => v < |h| && PullHere(h, v, escaped);
    t := FindLast(here, u, |h|);
    assert forall v: nat :: v < |h| ==> here(v) == PullHere(h, v, escaped);
  }

  lemma ReachGrows(h: seq<Glyph>, i: nat, t: nat, escaped: bool)
    requires i <= t <= |h|
    ensures Reach(h, i, escaped) <= Reach(h, t, escaped)
  {
    CutGlyphs(h[..t], i, escaped);
    assert h[..t][..i] == h[..i];
  }

  lemma PullStartsWithSlash(r: string, j: nat)
    requires j < |r| && PullSuffix(r[j..])
    ensures r[j] == '/'
  {
    assert r[j] == r[j..][0] == "/pull/"[0];
  }

  /** What the search finds in the text is what there is among the glyphs. */
  lemma PullFound(h: seq<Glyph>, j: nat, escaped: bool) returns (i: nat)
    requires AllGlyphs(h) && j < |Reads(h, escaped)| && PullSuffix(Reads(h, escaped)[j..])
    ensures i < |h| && j == Reach(h, i, escaped) && PullHere(h, i, escaped)
  {
    PullStartsWithSlash(Reads(h, escaped), j);
    i := SlashAt(h, j, escaped);
    PullAt(h, i, escaped);
  }

  lemma LastReachesFar(h: seq<Glyph>, t: nat, escaped: bool)
    requires AllGlyphs(h) && t < |h| && PullHere(h, t, escaped)
    ensures LastPull(Reads(h, escaped)).Some? && Reach(h, t, escaped) <= LastPull(Reads(h, escaped)).value
  {
    PullAt(h, t, escaped);
    ReachBounds(h, t, escaped);
    LastPullIsLast(Reads(h, escaped), Reach(h, t, escaped));
  }

  lemma NoneFarther(h: seq<Glyph>, t: nat, j: nat, escaped: bool)
    requires AllGlyphs(h) && IsLast(h, t, escaped) && j < |Reads(h, escaped)| && PullSuffix(Reads(h, escaped)[j..])
    ensures j <= Reach(h, t, escaped)
  {
    var i := PullFound(h, j, escaped);
    ReachGrows(h, i, t, escaped);
  }

  lemma LastReachesNoFarther(h: seq<Glyph>, t: nat, escaped: bool)
    requires AllGlyphs(h) && IsLast(h, t, escaped) && LastPull(Reads(h, escaped)).Some?
    ensures LastPull(Reads(h, escaped)).value <= Reach(h, t, escaped)
  {
    LastPullIsThere(Reads(h, escaped));
    NoneFarther(h, t, LastPull(Reads(h, escaped)).value, escaped);
  }

  lemma LastPullIs(h: seq<Glyph>, t: nat, escaped: bool)
    requires AllGlyphs(h) && IsLast(h, t, escaped)
    ensures LastPull(Reads(h, escaped)) == Some(Reach(h, t, escaped))
  {
    LastReachesFar(h, t, escaped);
    LastReachesNoFarther(h, t, escaped);
  }

  lemma LastPullThere(h: seq<Glyph>, escaped: bool) returns (t: nat)
    requires AllGlyphs(h) && LastPull(Reads(h, escaped)).Some?
    ensures IsLast(h, t, escaped)
  {
    LastPullIsThere(Reads(h, escaped));
    var i := PullFound(h, LastPull(Reads(h, escaped)).value, escaped);
    t := LastFrom(h, i, escaped);
  }

  // ---- addresses: what is found ----

  /** An address among the glyphs: what stands behind the host, and how much of that is the repository. */
  ghost predicate IsAddress(gs: seq<Glyph>, tail: seq<Glyph>, t: nat, escaped: bool) {
    && BehindGitHub(gs) == Some(tail) && IsTail(tail, gs) && (escaped ==> FrontKept(gs, tail))
    && IsLast(tail, t, escaped) && InnerSlash(tail[..t])
  }

  /** The reference an address gives. */
  function AddressRef(tail: seq<Glyph>, t: nat, escaped: bool): PullRequestReference
    requires t + 6 <= |tail|
  {
    PullRequestReference(Number(tail[t..]), Reads(tail[..t], escaped))
  }

  lemma AddressParts(w: string, r: string, repository: string, t: string, number: string)
    requires AfterGitHub(w) == Some(r) && LastPull(r) == Some(|repository|) && repository <= r && r[|repository|..] == t
    requires |t| >= 6 && number == t[6..][..Span(t[6..], IsDigit)]
    ensures MatchLinkPullRequest(w) ==
      if HasInnerSlash(repository) then Some(PullRequestReference(number, repository)) else None
  {
    assert r[..|repository|] == repository;
  }

  lemma {:induction false} NumberRead(h: seq<Glyph>, escaped: bool)
    requires AllGlyphs(h) && Starts(h, "/pull/")
    ensures var t := Reads(h, escaped); |t| >= 6 && Number(h) == t[6..][..Span(t[6..], IsDigit)]
  {
    NumberBehind(h, escaped);
  }

  lemma {:induction false} LastPullCut(tail: seq<Glyph>, t: nat, escaped: bool)
    requires AllGlyphs(tail) && IsLast(tail, t, escaped)
    ensures var r, repository := Reads(tail, escaped), Reads(tail[..t], escaped);
      LastPull(r) == Some(|repository|) && repository <= r && r[|repository|..] == Reads(tail[t..], escaped)
  {
    LastPullIs(tail, t, escaped);
    CutGlyphs(tail, t, escaped);
  }

  lemma {:induction false} AddressBehind(w: string, tail: seq<Glyph>, t: nat, escaped: bool)
    requires AllGlyphs(tail) && AfterGitHub(w) == Some(Reads(tail, escaped)) && IsLast(tail, t, escaped)
    ensures MatchLinkPullRequest(w) == if InnerSlash(tail[..t]) then Some(AddressRef(tail, t, escaped)) else None
  {
    LastPullCut(tail, t, escaped);
    NumberRead(tail[t..], escaped);
    InnerSlashIs(tail[..t], escaped);
    AddressParts(w, Reads(tail, escaped), Reads(tail[..t], escaped), Reads(tail[t..], escaped), Number(tail[t..]));
  }

  lemma GitHubTail(gs: seq<Glyph>, tail: seq<Glyph>, escaped: bool)
    requires AllGlyphs(gs) && BehindGitHub(gs) == Some(tail) && (escaped ==> FrontKept(gs, tail))
    ensures AllGlyphs(tail) && AfterGitHub(Reads(gs, escaped)) == Some(Reads(tail, escaped))
  {
    GitHubIs(gs, escaped);
  }

  lemma AddressFound(gs: seq<Glyph>, tail: seq<Glyph>, t: nat, escaped: bool)
    requires AllGlyphs(gs) && IsAddress(gs, tail, t, escaped)
    ensures MatchLinkPullRequest(Reads(gs, escaped)) == Some(AddressRef(tail, t, escaped))
  {
    GitHubTail(gs, tail, escaped);
    AddressBehind(Reads(gs, escaped), tail, t, escaped);
  }

  lemma GitHubThere(gs: seq<Glyph>, escaped: bool) returns (tail: seq<Glyph>)
    requires AllGlyphs(gs) && AfterGitHub(Reads(gs, escaped)).Some?
    ensures BehindGitHub(gs) == Some(tail) && IsTail(tail, gs) && (escaped ==> FrontKept(gs, tail))
    ensures AllGlyphs(tail) && AfterGitHub(Reads(gs, escaped)) == Some(Reads(tail, escaped))
  {
    GitHubIs(gs, escaped);
    tail := BehindGitHub(gs).value;
  }

  lemma MatchedParts(w: string)
    requires MatchLinkPullRequest(w).Some?
    ensures AfterGitHub(w).Some? && LastPull(AfterGitHub(w).value).Some?
  {
  }

  lemma AddressThere(gs: seq<Glyph>, escaped: bool) returns (tail: seq<Glyph>, t: nat)
    requires AllGlyphs(gs) && MatchLinkPullRequest(Reads(gs, escaped)).Some?
    ensures IsAddress(gs, tail, t, escaped)
  {
    MatchedParts(Reads(gs, escaped));
    tail := GitHubThere(gs, escaped);
    t := LastPullThere(tail, escaped);
    AddressBehind(Reads(gs, escaped), tail, t, escaped);
  }

  // ---- addresses: what escaping does to them ----

  lemma InnerSlashGrows(tail: seq<Glyph>, t: nat, t': nat)
    requires t <= t' <= |tail| && InnerSlash(tail[..t])
    ensures InnerSlash(tail[..t'])
  {
    var i :| 1 <= i < |tail[..t]| - 1 && tail[..t][i].item == Plain('/');
    assert tail[..t'][i] == tail[..t][i];
  }

  /** An address in the escaped text is one of the message, with a repository that goes at least as far. */
  lemma EscapedAddressIsAddress(gs: seq<Glyph>, tail: seq<Glyph>, t: nat) returns (t': nat)
    requires AllGlyphs(gs) && IsAddress(gs, tail, t, true)
    ensures t <= t' && IsAddress(gs, tail, t', false)
  {
    t' := LastFrom(tail, t, false);
    InnerSlashGrows(tail, t, t');
  }

  function Slashes(s: string): nat {
    if s == "" then 0 else (if s[0] == '/' then 1 else 0) + Slashes(s[1..])
  }

  lemma {:induction false} SlashesAppend(a: string, b: string)
    ensures Slashes(a + b) == Slashes(a) + Slashes(b)
  {
    if a == "" {
      assert a + b == b;
    } else {
      DropConcat(a, b);
      SlashesAppend(a[1..], b);
    }
  }

  lemma {:induction false} NoSlashes(x: string)
    requires NoSlashInside(x) && x[0] != '/'
    ensures Slashes(x) == 0
  {
    if |x| > 1 {
      NoSlashes(x[1..]);
    }
  }

  lemma GlyphSlashes(g: Glyph)
    requires IsGlyph(g)
    ensures Slashes(Shown(g, false)) == Slashes(Shown(g, true))
  {
    GlyphHasNoSlash(g, false);
    GlyphHasNoSlash(g, true);
    if !g.item.Plain? {
      NoSlashes(Shown(g, false));
      NoSlashes(Shown(g, true));
    }
  }

  /** Escaping neither adds nor removes a slash. */
  lemma {:induction false} SameSlashes(gs: seq<Glyph>)
    requires AllGlyphs(gs)
    ensures Slashes(Reads(gs, false)) == Slashes(Reads(gs, true))
  {
    if gs != [] {
      GlyphSlashes(gs[0]);
      SameSlashes(gs[1..]);
      SlashesAppend(Shown(gs[0], false), Reads(gs[1..], false));
      SlashesAppend(Shown(gs[0], true), Reads(gs[1..], true));
    }
  }

  /** A repository that ends earlier has fewer slashes. */
  lemma FewerSlashes(tail: seq<Glyph>, t: nat, t': nat)
    requires AllGlyphs(tail) && t < t' <= |tail| && tail[t].item == Plain('/')
    ensures Slashes(Reads(tail[..t], true)) < Slashes(Reads(tail[..t'], false))
  {
    SameSlashes(tail[..t]);
    var q := tail[t..t'];
    assert tail[..t'] == tail[..t] + q && q[0] == tail[t];
    ReadsAppend(tail[..t], q, false);
    SlashesAppend(Reads(tail[..t], false), Reads(q, false));
    FirstGlyph(q, false);
  }

  /** The address is found in the escaped text as well, and is the same there. */
  predicate AddressKept(gs: seq<Glyph>, tail: seq<Glyph>, t: nat)
    requires t + 6 <= |tail|
  {
    FrontKept(gs, tail) && AllKept(tail[..t]) && CloserKept(tail[t..])
  }

  lemma LastKept(h: seq<Glyph>, t: nat)
    requires IsLast(h, t, false) && CloserKept(h[t..])
    ensures IsLast(h, t, true)
  {
    forall u | t < u < |h|
      ensures !PullHere(h, u, true)
    {
      assert !PullHere(h, u, false);
    }
  }

  lemma KeptAddress(gs: seq<Glyph>, tail: seq<Glyph>, t: nat)
    requires IsAddress(gs, tail, t, false) && AddressKept(gs, tail, t)
    ensures IsAddress(gs, tail, t, true)
  {
    LastKept(tail, t);
  }

  lemma PullSlash(h: seq<Glyph>, t: nat, escaped: bool)
    requires t <= |h| && PullHere(h, t, escaped)
    ensures t < |h| && h[t].item == Plain('/')
  {
    assert h[t..][0] == h[t];
  }

  lemma LastIsUnique(h: seq<Glyph>, t: nat, e: nat)
    requires IsLast(h, t, false) && IsLast(h, e, true)
    ensures e <= t && CloserKept(h[e..])
  {
    assert PullHere(h, e, false);
  }

  /** A repository found again is the same only if it ends at the same place and nothing in it was escaped. */
  lemma SameRepository(tail: seq<Glyph>, t: nat, e: nat)
    requires AllGlyphs(tail) && e <= t < |tail| && PullHere(tail, e, true)
    requires Reads(tail[..t], false) == Reads(tail[..e], true)
    ensures e == t && AllKept(tail[..t])
  {
    if e < t {
      PullSlash(tail, e, true);
      FewerSlashes(tail, e, t);
    }
    ReadsLengths(tail[..t]);
  }

  lemma SameAddress(gs: seq<Glyph>, tail: seq<Glyph>, t: nat, e: nat)
    requires AllGlyphs(tail) && IsAddress(gs, tail, t, false) && IsAddress(gs, tail, e, true)
    requires Reads(tail[..t], false) == Reads(tail[..e], true)
    ensures AddressKept(gs, tail, t)
  {
    LastIsUnique(tail, t, e);
    SameRepository(tail, t, e);
  }

  lemma AddressIsTail(gs: seq<Glyph>, tail: seq<Glyph>, t: nat, escaped: bool)
    requires AllGlyphs(gs) && IsAddress(gs, tail, t, escaped)
    ensures AllGlyphs(tail) && t + 6 <= |tail|
  {
  }

  lemma AddressStays(gs: seq<Glyph>, tail: seq<Glyph>, t: nat)
    requires AllGlyphs(gs) && IsAddress(gs, tail, t, false) && AddressKept(gs, tail, t)
    ensures MatchLinkPullRequest(Reads(gs, true)) == Some(AddressRef(tail, t, false))
  {
    KeptAddress(gs, tail, t);
    AddressFound(gs, tail, t, true);
    KeptReads(tail[..t]);
  }

  lemma AddressStayed(gs: seq<Glyph>, tail: seq<Glyph>, t: nat)
    requires AllGlyphs(gs) && IsAddress(gs, tail, t, false)
    requires MatchLinkPullRequest(Reads(gs, true)) == Some(AddressRef(tail, t, false))
    ensures AddressKept(gs, tail, t)
  {
    AddressIsTail(gs, tail, t, false);
    var tail', e := AddressThere(gs, true);
    AddressFound(gs, tail, e, true);
    SameAddress(gs, tail, t, e);
  }

  lemma NoAddressEscaped(gs: seq<Glyph>)
    requires AllGlyphs(gs) && MatchLinkPullRequest(Reads(gs, false)) == None
    ensures MatchLinkPullRequest(Reads(gs, true)) == None
  {
    if MatchLinkPullRequest(Reads(gs, true)).Some? {
      var tail, e := AddressThere(gs, true);
      var t := EscapedAddressIsAddress(gs, tail, e);
      AddressFound(gs, tail, t, false);
    }
  }

  // ---- one word ----

  /** How much of a word a pattern takes: all of it, or an address up to its number and the character that ends it. */
  function Taken(w: string): Option<nat> {
    if MatchShortPullRequest(w).Some? then Some(|w|)
    else if MatchLinkPullRequest(w).Some? then Some(AddressEnd(w))
    else None
  }

  function AddressEnd(w: string): nat
    requires MatchLinkPullRequest(w).Some?
  {
    var r := AfterGitHub(w).value;
    var t := r[LastPull(r).value..];
    var n := Span(t[6..], IsDigit);
    |w| - |t| + 6 + n + (if 6 + n < |t| then 1 else 0)
  }

  /** How much of the message comes before the first character that escaping changes. */
  function Spared(gs: seq<Glyph>): nat {
    if gs == [] || !gs[0].kept then 0 else |Source(gs[0].item)| + Spared(gs[1..])
  }

  /** Whatever a pattern takes of the word, escaping spares it. */
  predicate TakenIsSpared(gs: seq<Glyph>) {
    match Taken(Reads(gs, false))
    case Some(m) => m <= Spared(gs)
    case None => true
  }

  lemma {:induction false} SparedIff(gs: seq<Glyph>, n: nat)
    requires AllGlyphs(gs) && n <= |gs|
    ensures Reach(gs, n, false) <= Spared(gs) <==> AllKept(gs[..n])
  {
    if n > 0 {
      ReachCons(gs, n - 1, false);
      ShownLengths(gs[0]);
      SparedIff(gs[1..], n - 1);
      assert gs[..n] == [gs[0]] + gs[1..][..n - 1];
    }
  }

  lemma SparedAll(gs: seq<Glyph>)
    requires AllGlyphs(gs)
    ensures |Reads(gs, false)| <= Spared(gs) <==> AllKept(gs)
  {
    SparedIff(gs, |gs|);
    assert gs[..|gs|] == gs;
  }

  /** The glyph that ends the number, if there is one. */
  function Closer(x: seq<Glyph>): seq<Glyph> {
    if x == [] then [] else [x[0]]
  }

  lemma KeptJoin(a: seq<Glyph>, b: seq<Glyph>)
    ensures AllKept(a + b) <==> AllKept(a) && AllKept(b)
  {
    assert (a + b)[..|a|] == a && (a + b)[|a|..] == b;
  }

  lemma KeptParts(front: seq<Glyph>, repository: seq<Glyph>, number: seq<Glyph>, closer: seq<Glyph>)
    requires AllKept(number)
    ensures AllKept(front + (repository + (number + closer))) <==> AllKept(front) && AllKept(repository) && AllKept(closer)
  {
    KeptJoin(front, repository + (number + closer));
    KeptJoin(repository, number + closer);
    KeptJoin(number, closer);
  }

  lemma NumberIsKept(h: seq<Glyph>)
    requires AllGlyphs(h) && PullRun(h)
    ensures AllKept(h[..|h| - |BehindNumber(h)|])
  {
    var n := PlainRun(h[6..], IsDigit);
    assert h[..|h| - |BehindNumber(h)|] == h[..6] + h[6..][..n];
  }

  lemma CloserKeptIff(h: seq<Glyph>)
    requires |h| >= 6
    ensures CloserKept(h) <==> AllKept(Closer(BehindNumber(h)))
  {
    var x := BehindNumber(h);
    assert x != [] ==> Closer(x)[0] == x[0];
  }

  lemma AddressKeptParts(whole: seq<Glyph>, front: seq<Glyph>, repository: seq<Glyph>, h: seq<Glyph>, x: seq<Glyph>)
    requires AllGlyphs(h) && PullRun(h) && x == BehindNumber(h)
    requires whole == front + (repository + (h[..|h| - |x|] + Closer(x)))
    ensures AllKept(whole) <==> AllKept(front) && AllKept(repository) && AllKept(Closer(x))
  {
    NumberIsKept(h);
    KeptParts(front, repository, h[..|h| - |x|], Closer(x));
  }

  lemma FrontKeptIff(gs: seq<Glyph>, tail: seq<Glyph>)
    requires IsTail(tail, gs)
    ensures FrontKept(gs, tail) <==> AllKept(gs[..|gs| - |tail|])
  {
  }

  lemma AddressKeptMeans(gs: seq<Glyph>, tail: seq<Glyph>, t: nat, h: seq<Glyph>, x: seq<Glyph>)
    requires IsTail(tail, gs) && t + 6 <= |tail| && h == tail[t..] && x == BehindNumber(h)
    ensures AddressKept(gs, tail, t) <==> AllKept(gs[..|gs| - |tail|]) && AllKept(tail[..t]) && AllKept(Closer(x))
  {
    FrontKeptIff(gs, tail);
    CloserKeptIff(h);
  }

  /** An address is kept exactly if all of it is spared. */
  lemma AddressKeptIff(gs: seq<Glyph>, tail: seq<Glyph>, t: nat, h: seq<Glyph>, x: seq<Glyph>)
    requires AllGlyphs(h) && IsTail(tail, gs) && t + 6 <= |tail| && h == tail[t..] && PullRun(h) && x == BehindNumber(h)
    ensures AddressKept(gs, tail, t) <==> AllKept(gs[..|gs| - |x| + |Closer(x)|])
  {
    AddressKeptMeans(gs, tail, t, h, x);
    EndParts(gs, tail, t, h, x);
    AddressKeptParts(gs[..|gs| - |x| + |Closer(x)|], gs[..|gs| - |tail|], tail[..t], h, x);
  }

  lemma TakeIntoTail(gs: seq<Glyph>, tail: seq<Glyph>, k: nat)
    requires IsTail(tail, gs) && k <= |tail|
    ensures gs[..|gs| - |tail| + k] == gs[..|gs| - |tail|] + tail[..k]
  {
  }

  lemma EndParts(gs: seq<Glyph>, tail: seq<Glyph>, t: nat, h: seq<Glyph>, x: seq<Glyph>)
    requires IsTail(tail, gs) && t + |h| == |tail| && IsTail(h, tail) && IsTail(x, h)
    ensures gs[..|gs| - |x| + |Closer(x)|] ==
      gs[..|gs| - |tail|] + (tail[..t] + (h[..|h| - |x|] + Closer(x)))
  {
    var c := |Closer(x)|;
    assert x[..c] == Closer(x);
    TakeIntoTail(h, x, c);
    TakeIntoTail(tail, h, |h| - |x| + c);
    TakeIntoTail(gs, tail, |tail| - |x| + c);
  }

  lemma AddressEndParts(w: string, r: string, j: nat, t: string, n: nat)
    requires AfterGitHub(w) == Some(r) && LastPull(r) == Some(j) && r[j..] == t && |t| >= 6
    requires n == Span(t[6..], IsDigit) && MatchLinkPullRequest(w).Some?
    ensures AddressEnd(w) == |w| - |t| + 6 + n + (if 6 + n < |t| then 1 else 0)
  {
  }

  lemma TailReach(gs: seq<Glyph>, tail: seq<Glyph>)
    requires IsTail(tail, gs)
    ensures Reach(gs, |gs| - |tail|, false) + |Reads(tail, false)| == |Reads(gs, false)|
  {
    CutGlyphs(gs, |gs| - |tail|, false);
  }

  lemma TailOfTail(gs: seq<Glyph>, tail: seq<Glyph>, x: seq<Glyph>)
    requires IsTail(tail, gs) && IsTail(x, tail)
    ensures IsTail(x, gs)
  {
    assert gs[|gs| - |x|..] == tail[|tail| - |x|..];
  }

  lemma NextReach(gs: seq<Glyph>, x: seq<Glyph>)
    requires x != [] && IsTail(x, gs)
    ensures Reach(gs, |gs| - |x| + 1, false) == Reach(gs, |gs| - |x|, false) + |Shown(x[0], false)|
  {
    var n := |gs| - |x|;
    assert gs[n] == x[0] && gs[..n + 1] == gs[..n] + [x[0]];
    ReadsAppend(gs[..n], [x[0]], false);
    ReadsCons(x[0], [], false);
    assert [x[0]] + [] == [x[0]];
  }

  lemma NumberLengths(h: seq<Glyph>, n: nat, x: seq<Glyph>)
    requires AllGlyphs(h) && PullRun(h) && n == PlainRun(h[6..], IsDigit) && x == BehindNumber(h)
    ensures var t := Reads(h, false);
      |t| == 6 + n + |Reads(x, false)| && Span(t[6..], IsDigit) == n && |Closer(x)| == if 6 + n < |t| then 1 else 0
  {
    NumberBehind(h, false);
    CloserIs(x, false);
  }

  /** The end of an address in the text, counted from the end of the text. */
  lemma AddressEndText(w: string, tail: seq<Glyph>, t: nat, h: seq<Glyph>, x: seq<Glyph>)
    requires AllGlyphs(tail) && AfterGitHub(w) == Some(Reads(tail, false)) && IsLast(tail, t, false)
    requires MatchLinkPullRequest(w).Some? && h == tail[t..] && x == BehindNumber(h)
    ensures AddressEnd(w) == |w| - |Reads(x, false)| + |Closer(x)|
  {
    var n := PlainRun(h[6..], IsDigit);
    LastPullIs(tail, t, false);
    CutGlyphs(tail, t, false);
    NumberLengths(h, n, x);
    AddressEndParts(w, Reads(tail, false), Reach(tail, t, false), Reads(h, false), n);
  }

  lemma EndReach(gs: seq<Glyph>, x: seq<Glyph>)
    requires AllGlyphs(gs) && IsTail(x, gs) && (x == [] || Closes(x[0].item))
    ensures Reach(gs, |gs| - |x| + |Closer(x)|, false) == |Reads(gs, false)| - |Reads(x, false)| + |Closer(x)|
  {
    TailReach(gs, x);
    if x != [] {
      AllGlyphsBehind(gs, |gs| - |x|);
      NextReach(gs, x);
      CloserLength(x);
    }
  }

  lemma NumberIsTail(gs: seq<Glyph>, tail: seq<Glyph>, t: nat)
    requires IsTail(tail, gs) && t + 6 <= |tail|
    ensures IsTail(BehindNumber(tail[t..]), gs)
  {
    TailOfTail(gs, tail, tail[t..]);
    TailOfTail(gs, tail[t..], BehindNumber(tail[t..]));
  }

  lemma CloserLength(x: seq<Glyph>)
    requires AllGlyphs(x) && x != [] && Closes(x[0].item)
    ensures |Shown(x[0], false)| == 1 && Reads(x, false) != ""
  {
    FirstGlyph(x, false);
  }

  lemma ReachIsSpared(gs: seq<Glyph>, x: seq<Glyph>, e: int)
    requires AllGlyphs(gs) && IsTail(x, gs) && (x == [] || Closes(x[0].item))
    requires e == |Reads(gs, false)| - |Reads(x, false)| + |Closer(x)|
    ensures e <= Spared(gs) <==> AllKept(gs[..|gs| - |x| + |Closer(x)|])
  {
    EndReach(gs, x);
    SparedIff(gs, |gs| - |x| + |Closer(x)|);
  }

  lemma NumberCloses(h: seq<Glyph>, x: seq<Glyph>)
    requires PullRun(h) && x == BehindNumber(h)
    ensures x == [] || Closes(x[0].item)
  {
  }

  /** An address is kept exactly if it ends within what is spared. */
  lemma SparedEnd(gs: seq<Glyph>, tail: seq<Glyph>, t: nat, h: seq<Glyph>, x: seq<Glyph>, e: int)
    requires AllGlyphs(gs) && IsTail(tail, gs) && t + 6 <= |tail| && h == tail[t..] && PullRun(h) && x == BehindNumber(h)
    requires e == |Reads(gs, false)| - |Reads(x, false)| + |Closer(x)|
    ensures e <= Spared(gs) <==> AddressKept(gs, tail, t)
  {
    AllGlyphsBehind(gs, |gs| - |tail|);
    AllGlyphsBehind(tail, t);
    NumberIsTail(gs, tail, t);
    NumberCloses(h, x);
    ReachIsSpared(gs, x, e);
    AddressKeptIff(gs, tail, t, h, x);
  }

  lemma LastParts(h: seq<Glyph>, t: nat)
    requires IsLast(h, t, false)
    ensures t + 6 <= |h| && PullRun(h[t..])
  {
  }

  lemma AddressTaken(gs: seq<Glyph>, tail: seq<Glyph>, t: nat, w: string)
    requires AllGlyphs(gs) && IsTail(tail, gs) && BehindGitHub(gs) == Some(tail) && IsLast(tail, t, false)
    requires w == Reads(gs, false) && MatchLinkPullRequest(w).Some?
    ensures t + 6 <= |tail| && (AddressEnd(w) <= Spared(gs) <==> AddressKept(gs, tail, t))
  {
    LastParts(tail, t);
    GitHubTail(gs, tail, false);
    AddressEndText(w, tail, t, tail[t..], BehindNumber(tail[t..]));
    SparedEnd(gs, tail, t, tail[t..], BehindNumber(tail[t..]), AddressEnd(w));
  }

  /** An address found in the message is found in the escaped text exactly if it is spared. */
  lemma AddressSpared(gs: seq<Glyph>)
    requires AllGlyphs(gs) && MatchLinkPullRequest(Reads(gs, false)).Some?
    ensures MatchLinkPullRequest(Reads(gs, true)) == MatchLinkPullRequest(Reads(gs, false)) <==>
      AddressEnd(Reads(gs, false)) <= Spared(gs)
  {
    var tail, t := AddressThere(gs, false);
    AddressIsTail(gs, tail, t, false);
    AddressFound(gs, tail, t, false);
    AddressTaken(gs, tail, t, Reads(gs, false));
    if AddressKept(gs, tail, t) {
      AddressStays(gs, tail, t);
    }
    if MatchLinkPullRequest(Reads(gs, true)) == MatchLinkPullRequest(Reads(gs, false)) {
      AddressStayed(gs, tail, t);
    }
  }

  /** The reference in a word, if there is one. */
  function Found(w: string): seq<PullRequestReference> {
    RefsUpTo(PullRequestPattern, w, 2)
  }

  lemma FoundParts(w: string)
    ensures Found(w) ==
      match MatchShortPullRequest(w)
      case Some(r) => [r]
      case None => match MatchLinkPullRequest(w) case Some(r) => [r] case None => []
  {
    RoundTrips.PullRequestPatternsExclude(w);
    assert RefsUpTo(PullRequestPattern, w, 0) == [];
    assert RefsUpTo(PullRequestPattern, w, 1) == match MatchShortPullRequest(w) case Some(r) => [r] case None => [];
  }

  /** Word by word: escaping creates no reference, and keeps one exactly if it spares all that the pattern takes. */
  ghost predicate EscapedAsTaken(gs: seq<Glyph>) {
    && |Found(Reads(gs, true))| <= |Found(Reads(gs, false))| <= 1
    && (Found(Reads(gs, true)) == Found(Reads(gs, false)) <==> TakenIsSpared(gs))
  }

  lemma WordWithShort(gs: seq<Glyph>)
    requires AllGlyphs(gs) && MatchShortPullRequest(Reads(gs, false)).Some?
    ensures EscapedAsTaken(gs)
  {
    FoundParts(Reads(gs, false));
    FoundParts(Reads(gs, true));
    ShortEscaped(gs);
    SparedAll(gs);
    RoundTrips.PullRequestPatternsExclude(Reads(gs, false));
    NoAddressEscaped(gs);
  }

  lemma {:induction false} WordWithAddress(gs: seq<Glyph>)
    requires AllGlyphs(gs) && MatchShortPullRequest(Reads(gs, false)) == None
    requires MatchLinkPullRequest(Reads(gs, false)).Some?
    ensures EscapedAsTaken(gs)
  {
    FoundParts(Reads(gs, false));
    FoundParts(Reads(gs, true));
    ShortEscaped(gs);
    AddressSpared(gs);
  }

  lemma WordWithout(gs: seq<Glyph>)
    requires AllGlyphs(gs) && MatchShortPullRequest(Reads(gs, false)) == MatchLinkPullRequest(Reads(gs, false)) == None
    ensures EscapedAsTaken(gs)
  {
    FoundParts(Reads(gs, false));
    FoundParts(Reads(gs, true));
    ShortEscaped(gs);
    NoAddressEscaped(gs);
  }

  lemma WordEscaped(gs: seq<Glyph>)
    requires AllGlyphs(gs)
    ensures EscapedAsTaken(gs)
  {
    if MatchShortPullRequest(Reads(gs, false)).Some? {
      WordWithShort(gs);
    } else if MatchLinkPullRequest(Reads(gs, false)).Some? {
      WordWithAddress(gs);
    } else {
      WordWithout(gs);
    }
  }

  // ---- the whole message ----

  function WordRun(gs: seq<Glyph>): (n: nat)
    ensures n <= |gs| && (n < |gs| ==> IsSpaceGlyph(gs[n]))
    ensures forall i :: 0 <= i < n ==> !IsSpaceGlyph(gs[i])
  {
    if gs == [] || IsSpaceGlyph(gs[0]) then 0 else 1 + WordRun(gs[1..])
  }

  /** The words of the message, glyph by glyph. */
  function GlyphWords(gs: seq<Glyph>): seq<seq<Glyph>>
    decreases |gs|
  {
    if gs == [] then []
    else if IsSpaceGlyph(gs[0]) then GlyphWords(gs[1..])
    else [gs[..WordRun(gs)]] + GlyphWords(gs[WordRun(gs)..])
  }

  function FoundIn(words: seq<seq<Glyph>>, escaped: bool): seq<PullRequestReference> {
    if words == [] then [] else Found(Reads(words[0], escaped)) + FoundIn(words[1..], escaped)
  }

  predicate AllWords(words: seq<seq<Glyph>>) {
    forall i :: 0 <= i < |words| ==> AllGlyphs(words[i])
  }

  lemma {:induction false} WordIsUnbroken(gs: seq<Glyph>, escaped: bool)
    requires AllGlyphs(gs) && forall i :: 0 <= i < |gs| ==> !IsSpaceGlyph(gs[i])
    ensures Unbroken(Reads(gs, escaped))
  {
    if gs != [] {
      GlyphUnbroken(gs[0], escaped);
      WordIsUnbroken(gs[1..], escaped);
      RoundTrips.UnbrokenJoin(Shown(gs[0], escaped), Reads(gs[1..], escaped));
    }
  }

  lemma SpaceFirst(gs: seq<Glyph>, escaped: bool)
    requires AllGlyphs(gs)
    ensures gs != [] && IsSpaceGlyph(gs[0]) ==>
      Reads(gs, escaped) != "" && IsSpace(Reads(gs, escaped)[0]) && Reads(gs, escaped)[1..] == Reads(gs[1..], escaped)
    ensures gs == [] ==> Reads(gs, escaped) == ""
  {
    if gs != [] {
      FirstGlyph(gs, escaped);
    }
  }

  lemma CutWord(gs: seq<Glyph>, n: nat, escaped: bool)
    requires AllGlyphs(gs) && gs != [] && !IsSpaceGlyph(gs[0]) && n == WordRun(gs)
    ensures var w, rest := Reads(gs[..n], escaped), Reads(gs[n..], escaped);
      && n > 0 && Reads(gs, escaped) == w + rest && w != "" && Unbroken(w)
      && (rest == "" || IsSpace(rest[0])) && AllGlyphs(gs[..n]) && AllGlyphs(gs[n..])
  {
    ReadsAppend(gs[..n], gs[n..], escaped);
    assert gs == gs[..n] + gs[n..];
    AllGlyphsBehind(gs, n);
    WordIsUnbroken(gs[..n], escaped);
    ReadsLengths(gs[..n]);
    SpaceFirst(gs[n..], escaped);
  }

  lemma NextWord(gs: seq<Glyph>, n: nat, escaped: bool)
    requires AllGlyphs(gs) && gs != [] && !IsSpaceGlyph(gs[0]) && n == WordRun(gs)
    ensures n > 0 && Words(Reads(gs, escaped)) == [Reads(gs[..n], escaped)] + Words(Reads(gs[n..], escaped))
  {
    CutWord(gs, n, escaped);
    RoundTrips.WordFirst(Reads(gs[..n], escaped), Reads(gs[n..], escaped));
  }

  lemma {:induction false} RefsByGlyphWords(gs: seq<Glyph>, escaped: bool)
    requires AllGlyphs(gs)
    ensures AllWords(GlyphWords(gs))
    ensures RefsInWords(PullRequestPattern, Words(Reads(gs, escaped))) == FoundIn(GlyphWords(gs), escaped)
    decreases |gs|
  {
    if gs == [] {
    } else if IsSpaceGlyph(gs[0]) {
      SpaceFirst(gs, escaped);
      RefsByGlyphWords(gs[1..], escaped);
    } else {
      var n := WordRun(gs);
      NextWord(gs, n, escaped);
      RefsByGlyphWords(gs[n..], escaped);
    }
  }

  lemma SameConcat(a: seq<PullRequestReference>, x: seq<PullRequestReference>, b: seq<PullRequestReference>, y: seq<PullRequestReference>)
    requires |a| <= |b| && |x| <= |y|
    ensures a + x == b + y <==> a == b && x == y
  {
    if a + x == b + y {
      assert |a| == |b|;
      assert a == (a + x)[..|a|] && x == (a + x)[|a|..];
      assert b == (b + y)[..|b|] && y == (b + y)[|b|..];
    }
  }

  predicate AllSpared(words: seq<seq<Glyph>>) {
    words == [] || (TakenIsSpared(words[0]) && AllSpared(words[1..]))
  }

  lemma {:induction false} WordsEscaped(words: seq<seq<Glyph>>)
    requires AllWords(words)
    ensures |FoundIn(words, true)| <= |FoundIn(words, false)|
    ensures FoundIn(words, true) == FoundIn(words, false) <==> AllSpared(words)
  {
    if words != [] {
      WordEscaped(words[0]);
      WordsEscaped(words[1..]);
      SameConcat(Found(Reads(words[0], true)), FoundIn(words[1..], true),
                 Found(Reads(words[0], false)), FoundIn(words[1..], false));
    }
  }

  /** In every word with a pull request, what the pattern takes comes before the first character that escaping changes. */
  predicate SparesPullRequests(s: string) {
    AllSpared(GlyphWords(MessageGlyphs(s)))
  }

  /**
   * For every message: the pull request references found in the escaped message are those of the message exactly if
   * escaping changes no character of what the patterns take. It never creates one.
   */
  lemma EscapeKeepsPullRequestsIff(s: string)
    ensures PullRequestRefs(Escaped(s)) == PullRequestRefs(s) <==> SparesPullRequests(s)
    ensures |PullRequestRefs(Escaped(s))| <= |PullRequestRefs(s)|
  {
    var gs := MessageGlyphs(s);
    MessageReads(s);
    RefsByGlyphWords(gs, false);
    RefsByGlyphWords(gs, true);
    WordsEscaped(GlyphWords(gs));
  }
}
