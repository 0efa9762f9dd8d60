/** What escaping a message loses, and what it does not. */
module EscapeLaws {
  import opened Text
  import opened Escape
  import References

  // ---- a message as a sequence of items ----

  /** One character of a message, or one reference <@id|name>. */
  datatype Item = Plain(c: char) | Amp | Lt | Gt | Ref(id: string, name: string)

  predicate Proper(item: Item) {
    match item
    case Plain(c) => c != '<' && c != '>' && c != '&'
    case Ref(id, name) => AllIn(id, IsIDChar) && AllIn(name, IsNameChar)
    case _ => true
  }

  predicate AllProper(items: seq<Item>) {
    forall i :: 0 <= i < |items| ==> Proper(items[i])
  }

  function IdName(id: string, name: string, rest: string): string { id + ("|" + (name + rest)) }

  function RefText(id: string, name: string): string { "<@" + IdName(id, name, ">") }

  /** Where an item may stand: in the message, in the escaped message, or in a restored link. */
  datatype Place = InMessage | InEscaped | InLink

  function Show(item: Item, place: Place): string {
    match item
    case Plain(c) => [c]
    case Amp => if place == InEscaped then AMP else "&"
    case Lt => if place == InMessage then "<" else LT
    case Gt => if place == InMessage then ">" else GT
    case Ref(id, name) => RefText(id, name)
  }

  function Flat(items: seq<Item>, place: Place): string {
    if items == [] then "" else Show(items[0], place) + Flat(items[1..], place)
  }

  lemma FlatCons(item: Item, items: seq<Item>, place: Place)
    ensures Flat([item] + items, place) == Show(item, place) + Flat(items, place)
  {
    assert ([item] + items)[1..] == items;
  }

  /** The item in the message. */
  function Source(item: Item): string { Show(item, InMessage) }

  /** The first item of a message. */
  function First(s: string): (item: Item)
    requires s != ""
  {
    if s[0] == '<' then
      match References.MatchEscapedUser(s)
      case Some(r) => Ref(r.id, r.name)
      case None => Lt
    else if s[0] == '>' then Gt
    else if s[0] == '&' then Amp
    else Plain(s[0])
  }

  lemma FirstIsThere(s: string)
    requires s != ""
    ensures Source(First(s)) <= s && Proper(First(s)) && Source(First(s)) != ""
  {
    if First(s).Ref? {
      EscapedUserMatches(s, References.UserReference(First(s).id, First(s).name));
    }
  }

  lemma IdNameAppend(id: string, name: string, a: string, b: string)
    ensures IdName(id, name, a) + b == IdName(id, name, a + b)
  {
    assert (name + a) + b == name + (a + b);
    assert ("|" + (name + a)) + b == "|" + ((name + a) + b);
    assert (id + ("|" + (name + a))) + b == id + (("|" + (name + a)) + b);
  }

  /** Lengths found are those of an id and of a name. */
  lemma IdNameIsSplit(t: string, close: string, n: nat, m: nat)
    requires MatchIdName(t, close) == Some((n, m))
    ensures AllIn(t[..n], IsIDChar) && AllIn(t[n + 1..][..m], IsNameChar)
    ensures t == IdName(t[..n], t[n + 1..][..m], close + t[n + 1..][m..][|close|..])
  {
    var u := t[n + 1..];
    var v := u[m..];
    CutAt(v, |close|);
    CutAt(u, m);
    CutAt(t, n);
    CutAt(t[n..], 1);
    assert v[..|close|] == close && t[n..][..1] == "|" && t[n..][1..] == u;
  }

  lemma CutAt(s: string, k: nat)
    requires k <= |s|
    ensures s == s[..k] + s[k..]
  {
  }

  lemma UserBodyMatches(t: string, user: References.UserReference) returns (rest: string)
    requires References.MatchUserBody(t) == Some(user)
    ensures AllIn(user.id, IsIDChar) && AllIn(user.name, IsNameChar)
    ensures t == IdName(user.id, user.name, ">" + rest)
  {
    var (n, m) := MatchIdName(t, ">").value;
    IdNameIsSplit(t, ">", n, m);
    rest := t[n + 1..][m..][1..];
  }

  lemma EscapedUserMatches(s: string, user: References.UserReference)
    requires References.MatchEscapedUser(s) == Some(user)
    ensures AllIn(user.id, IsIDChar) && AllIn(user.name, IsNameChar) && RefText(user.id, user.name) <= s
  {
    var rest := UserBodyMatches(s[2..], user);
    CutAt(s, 2);
    RefTextAppend(user.id, user.name, rest);
  }

  lemma RefTextAppend(id: string, name: string, rest: string)
    ensures RefText(id, name) + rest == "<@" + IdName(id, name, ">" + rest)
  {
    IdNameAppend(id, name, ">", rest);
    Associate("<@", IdName(id, name, ">"), rest);
  }

  lemma Associate(a: string, b: string, c: string)
    ensures (a + b) + c == a + (b + c)
  {
  }

  function Lex(s: string): seq<Item>
    decreases |s|
  {
    if s == "" then []
    else
      FirstIsThere(s);
      [First(s)] + Lex(Behind(s))
  }

  /** The message behind its first item. */
  function Behind(s: string): (rest: string)
    requires s != ""
    ensures |rest| < |s| && s == Source(First(s)) + rest
  {
    FirstIsThere(s);
    s[|Source(First(s))|..]
  }

  lemma {:induction false} LexIsFaithful(s: string)
    ensures Flat(Lex(s), InMessage) == s
    decreases |s|
  {
    if s != "" {
      LexIsFaithful(Behind(s));
      FlatCons(First(s), Lex(Behind(s)), InMessage);
    }
  }

  lemma {:induction false} LexIsProper(s: string)
    ensures AllProper(Lex(s))
    decreases |s|
  {
    if s != "" {
      FirstIsThere(s);
      LexIsProper(Behind(s));
    }
  }

  // ---- escaping, and restoring the references, item by item ----

  /** The class does not contain a character that is escaped. */
  predicate KeepsPlain(kind: char -> bool) {
    !kind('&') && !kind('<') && !kind('>')
  }

  lemma {:induction false} SpanEscaped(t: string, kind: char -> bool)
    requires KeepsPlain(kind)
    ensures Span(EscapeAll(t), kind) == Span(t, kind)
  {
    if t != "" && kind(t[0]) {
      SpanEscaped(t[1..], kind);
      assert EscapeAll(t)[1..] == EscapeAll(t[1..]);
    }
  }

  predicate IsPlain(c: char) { c != '&' && c != '<' && c != '>' }

  lemma {:induction false} EscapeAppend(a: string, b: string)
    ensures EscapeAll(a + b) == EscapeAll(a) + EscapeAll(b)
  {
    if a == "" {
      assert a + b == b;
    } else {
      assert (a + b)[1..] == a[1..] + b;
      EscapeAppend(a[1..], b);
    }
  }

  lemma {:induction false} EscapePlain(p: string)
    requires forall i :: 0 <= i < |p| ==> IsPlain(p[i])
    ensures EscapeAll(p) == p
  {
    if p != "" {
      EscapePlain(p[1..]);
    }
  }

  lemma PlainPrefixEscaped(t: string, k: nat)
    requires k <= |t| && forall i :: 0 <= i < k ==> IsPlain(t[i])
    ensures k <= |EscapeAll(t)| && EscapeAll(t)[..k] == t[..k] && EscapeAll(t)[k..] == EscapeAll(t[k..])
  {
    CutAt(t, k);
    EscapeAppend(t[..k], t[k..]);
    EscapePlain(t[..k]);
  }

  lemma EscapedHead(t: string)
    requires t != ""
    ensures EscapeAll(t) == EscapeChar(t[0]) + EscapeAll(t[1..]) && EscapeChar(t[0]) != ""
    ensures EscapeAll(t)[0] == if IsPlain(t[0]) then t[0] else '&'
    ensures GT <= EscapeAll(t) <==> t[0] == '>'
  {
    if t[0] == '<' {
      assert EscapeAll(t)[1] == 'l' != GT[1];
    } else if t[0] == '&' {
      assert EscapeAll(t)[1] == 'a' != GT[1];
    } else if t[0] != '>' {
      assert EscapeAll(t)[0] != GT[0];
    }
  }

  lemma SpanThenHead(t: string, kind: char -> bool)
    requires KeepsPlain(kind)
    ensures var n, e := Span(t, kind), EscapeAll(t);
      && Span(e, kind) == n && e[n..] == EscapeAll(t[n..])
      && (n < |t| <==> n < |e|)
      && (n < |t| ==> e[n] == (if IsPlain(t[n]) then t[n] else '&') && (GT <= e[n..] <==> t[n] == '>'))
  {
    var n, e := Span(t, kind), EscapeAll(t);
    SpanEscaped(t, kind);
    PlainPrefixEscaped(t, n);
    if n < |t| {
      EscapedHead(t[n..]);
      assert e[n] == e[n..][0];
    }
  }

  lemma NameEscaped(u: string)
    ensures MatchName(EscapeAll(u), GT) == MatchName(u, ">")
  {
    SpanThenHead(u, IsNameChar);
  }

  lemma IdThenNameEscaped(t: string, n: nat)
    requires 0 < n == Span(t, IsIDChar) < |t| && t[n] == '|'
    requires n == Span(EscapeAll(t), IsIDChar) < |EscapeAll(t)| && EscapeAll(t)[n] == '|'
    ensures MatchIdName(EscapeAll(t), GT) == MatchIdName(t, ">")
  {
    var e, u := EscapeAll(t), t[n + 1..];
    PlainPrefixEscaped(t, n + 1);
    NameEscaped(u);
    IdThenName(t, n, u, ">", MatchName(u, ">"));
    IdThenName(e, n, EscapeAll(u), GT, MatchName(u, ">"));
  }

  /** The inside of a reference is found in the escaped text exactly where it is in the message. */
  lemma IdNameEscaped(t: string)
    ensures MatchIdName(EscapeAll(t), GT) == MatchIdName(t, ">")
  {
    var n := Span(t, IsIDChar);
    SpanThenHead(t, IsIDChar);
    if 0 < n < |t| && t[n] == '|' {
      IdThenNameEscaped(t, n);
    } else {
      NoIdThenName(t, n, ">");
      NoIdThenName(EscapeAll(t), n, GT);
    }
  }

  predicate NoAmp(s: string) {
    forall i :: 0 <= i < |s| ==> s[i] != '&'
  }

  lemma RestoreStep(e: string)
    requires e != "" && UserGroup(e) == None
    ensures RestoreUsers(e) == [e[0]] + RestoreUsers(e[1..])
  {
  }

  lemma NoReferenceHere(e: string)
    requires e != "" && (e[0] != '&' || (|e| >= 2 && e[1] != 'l'))
    ensures UserGroup(e) == None
  {
  }

  lemma DropConcat(p: string, e: string)
    requires p != ""
    ensures (p + e)[0] == p[0] && (p + e)[1..] == p[1..] + e && [p[0]] + p[1..] == p
    ensures [p[0]] + (p[1..] + e) == p + e
  {
  }

  lemma {:induction false} RestoreUsersSkips(p: string, e: string)
    requires NoAmp(p)
    ensures RestoreUsers(p + e) == p + RestoreUsers(e)
  {
    if p == "" {
      assert p + e == e;
    } else {
      DropConcat(p, e);
      NoReferenceHere(p + e);
      RestoreStep(p + e);
      RestoreUsersSkips(p[1..], e);
      DropConcat(p, RestoreUsers(e));
    }
  }

  /** An escaped character that begins no reference is left as it is. */
  lemma RestoreUsersSkipsEntity(p: string, e: string)
    requires p != "" && NoAmp(p[1..]) && UserGroup(p + e) == None
    ensures RestoreUsers(p + e) == p + RestoreUsers(e)
  {
    DropConcat(p, e);
    RestoreStep(p + e);
    RestoreUsersSkips(p[1..], e);
    DropConcat(p, RestoreUsers(e));
  }

  lemma EscapeCons(c: char, t: string)
    ensures EscapeAll([c] + t) == EscapeChar(c) + EscapeAll(t)
  {
    assert ([c] + t)[1..] == t;
  }

  /** A plain text between brackets, escaped. */
  lemma EscapeBracketed(p: string, rest: string)
    requires forall i :: 0 <= i < |p| ==> IsPlain(p[i])
    ensures EscapeAll(['<'] + (p + (['>'] + rest))) == LT + (p + (GT + EscapeAll(rest)))
  {
    EscapeCons('<', p + (['>'] + rest));
    EscapeAppend(p, ['>'] + rest);
    EscapePlain(p);
    EscapeCons('>', rest);
  }

  lemma MatchIdNameForm(id: string, name: string, close: string, rest: string)
    requires AllIn(id, IsIDChar) && AllIn(name, IsNameChar) && close != "" && !IsNameChar(close[0])
    ensures MatchIdName(IdName(id, name, close + rest), close) == Some((|id|, |name|))
  {
    var u := name + (close + rest);
    var t := id + ("|" + u);
    SpanOfRun(t, |id|, IsIDChar);
    assert t[|id| + 1..] == u;
    SpanOfRun(u, |name|, IsNameChar);
    assert u[|name|..] == close + rest;
  }

  lemma RestoreMatch(e: string, p: string, rest: string)
    requires UserGroup(e) == Some(|p|) && e[4..4 + |p|] == p && e[8 + |p|..] == rest
    ensures RestoreUsers(e) == "<" + p + ">" + RestoreUsers(rest)
  {
  }

  lemma Reassociate(p: string, r: string)
    ensures "<" + p + ">" + r == ['<'] + (p + (['>'] + r))
  {
    assert ("<" + p + ">") + r == ("<" + p) + (">" + r);
  }

  /** The characters of a bracketed group. */
  lemma FourSlices(e: string, lt: string, p: string, gt: string, rest: string)
    requires |lt| == 4 && |gt| == 4 && e == lt + (p + (gt + rest))
    ensures |e| == 8 + |p| + |rest| && e[4..4 + |p|] == p && e[8 + |p|..] == rest
  {
    var u, v := p + (gt + rest), gt + rest;
    assert e[4..] == u && u[..|p|] == p && u[|p|..] == v && v[4..] == rest;
    assert e[4..4 + |p|] == e[4..][..|p|] && e[8 + |p|..] == e[4..][|p|..][4..];
  }

  lemma BehindFive(e: string, lt: string, p: string, v: string)
    requires |lt| == 4 && p != "" && e == lt + (p + v)
    ensures e[5..] == p[1..] + v
  {
    assert e[4..] == p + v;
    assert e[5..] == e[4..][1..];
  }

  lemma GroupFound(e: string, n: nat, m: nat)
    requires "&lt;@" <= e && MatchIdName(e[5..], GT) == Some((n, m))
    ensures UserGroup(e) == Some(2 + n + m)
  {
  }

  /** A restored reference: its inside is p, written between escaped brackets. */
  lemma RestoreBracketed(p: string, rest: string, n: nat, m: nat)
    requires p != "" && p[0] == '@' && |p| == 2 + n + m
    requires MatchIdName(p[1..] + (GT + rest), GT) == Some((n, m))
    ensures RestoreUsers(LT + (p + (GT + rest))) == ['<'] + (p + (['>'] + RestoreUsers(rest)))
  {
    var u := p + (GT + rest);
    var e := LT + u;
    FourSlices(e, LT, p, GT, rest);
    BehindFive(e, LT, p, GT + rest);
    AtSign(e, u);
    RestoreGroup(e, p, rest, n, m);
  }

  lemma RestoreGroup(e: string, p: string, rest: string, n: nat, m: nat)
    requires |p| == 2 + n + m && |e| == 8 + |p| + |rest| && e[4..4 + |p|] == p && e[8 + |p|..] == rest
    requires "&lt;@" <= e && MatchIdName(e[5..], GT) == Some((n, m))
    ensures RestoreUsers(e) == ['<'] + (p + (['>'] + RestoreUsers(rest)))
  {
    GroupFound(e, n, m);
    RestoreMatch(e, p, rest);
    Reassociate(p, RestoreUsers(rest));
  }

  lemma AtSign(e: string, u: string)
    requires e == LT + u && u != "" && u[0] == '@'
    ensures "&lt;@" <= e
  {
    assert e[..5] == LT + [u[0]];
  }

  /** A reference in the message is escaped and then restored. */
  lemma ReferenceSurvives(id: string, name: string, rest: string)
    requires AllIn(id, IsIDChar) && AllIn(name, IsNameChar)
    ensures RestoreUsers(EscapeAll(RefText(id, name) + rest)) == RefText(id, name) + RestoreUsers(EscapeAll(rest))
  {
    var t := IdName(id, name, "");
    var p := ['@'] + t;
    var e := EscapeAll(rest);
    RefAsBracketed(id, name, rest);
    RefAsBracketed(id, name, RestoreUsers(e));
    IdNameIsPlain(id, name);
    EscapeBracketed(p, rest);
    MatchIdNameForm(id, name, GT, e);
    IdNameAppend(id, name, "", GT + e);
    assert "" + (GT + e) == GT + e && p[1..] == t;
    RestoreBracketed(p, e, |id|, |name|);
  }

  lemma IdNameIsPlain(id: string, name: string)
    requires AllIn(id, IsIDChar) && AllIn(name, IsNameChar)
    ensures forall i :: 0 <= i < |['@'] + IdName(id, name, "")| ==> IsPlain((['@'] + IdName(id, name, ""))[i])
  {
  }

  lemma RefAsBracketed(id: string, name: string, rest: string)
    ensures RefText(id, name) + rest == ['<'] + ((['@'] + IdName(id, name, "")) + (['>'] + rest))
  {
    IdNameAppend(id, name, "", ">");
    assert "" + ">" == ">";
    var t := IdName(id, name, "");
    assert RefText(id, name) == ['<'] + (['@'] + (t + ['>']));
    assert (t + ['>']) + rest == t + (['>'] + rest);
  }

  lemma RestoreReference(s: string)
    requires s != "" && First(s).Ref?
    ensures RestoreUsers(EscapeAll(s)) == Source(First(s)) + RestoreUsers(EscapeAll(Behind(s)))
  {
    FirstIsThere(s);
    ReferenceSurvives(First(s).id, First(s).name, Behind(s));
  }

  lemma GroupMissing(e: string)
    requires |e| < 5 || e[4] != '@' || MatchIdName(e[5..], GT) == None
    ensures UserGroup(e) == None
  {
  }

  /** An opening bracket that begins no reference in the message begins none in the escaped message. */
  lemma NoReference(s: string)
    requires s != "" && s[0] == '<' && !First(s).Ref?
    ensures UserGroup(LT + EscapeAll(s[1..])) == None
  {
    var e := LT + EscapeAll(s[1..]);
    if |s| >= 2 {
      EscapedHead(s[1..]);
      assert e[4] == EscapeAll(s[1..])[0];
      if s[1] == '@' {
        assert e[5..] == EscapeAll(s[2..]);
        IdNameEscaped(s[2..]);
        NotReferenced(s);
      }
    }
    GroupMissing(e);
  }

  lemma NotReferenced(s: string)
    requires |s| >= 2 && s[0] == '<' && s[1] == '@' && !First(s).Ref?
    ensures MatchIdName(s[2..], ">") == None
  {
    assert s[..2] == "<@";
  }

  lemma FirstRestored(s: string)
    requires s != ""
    ensures RestoreUsers(EscapeAll(s)) == Show(First(s), InEscaped) + RestoreUsers(EscapeAll(Behind(s)))
  {
    if First(s).Ref? {
      RestoreReference(s);
    } else {
      var p, e := EscapeChar(s[0]), EscapeAll(s[1..]);
      assert Behind(s) == s[1..];
      EscapedHead(s);
      if s[0] == '<' {
        NoReference(s);
      } else if s[0] == '>' {
        assert (p + e)[1] == 'g' != "&lt;@"[1];
      } else if s[0] == '&' {
        assert (p + e)[1] == 'a' != "&lt;@"[1];
      } else {
        assert (p + e)[0] != '&';
      }
      RestoreUsersSkipsEntity(p, e);
    }
  }

  /** Escaping and restoring the references works item by item. */
  lemma {:induction false} RestoreUsersOfEscaped(s: string)
    ensures RestoreUsers(EscapeAll(s)) == Flat(Lex(s), InEscaped)
    decreases |s|
  {
    if s != "" {
      RestoreUsersOfEscaped(Behind(s));
      FlatCons(First(s), Lex(Behind(s)), InEscaped);
      FirstRestored(s);
    }
  }
}
