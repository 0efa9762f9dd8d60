/** slack/util.go: EscapeMessage as it runs, with the brackets of a link overwritten in the text being searched. */
module EscapeInPlace {
  import opened Text
  import opened Escape
  import EscapeLaws
  import LinkLaws
  import Decoding

  lemma NewBrackets(m: string, after: string)
    requires |m| == |after| >= 8 && after == m[3 := '<'][|m| - 4 := '>']
    ensures after[3..|m| - 3] == "<" + m[4..|m| - 4] + ">"
  {
  }

  /** The function applied to a match: the slice src[lo..hi] of the searched text. */
  method RestoreLinkIn(src: array<char>, lo: nat, hi: nat) returns (link: string)
    requires lo + 8 <= hi <= src.Length
    modifies src
    ensures link == RestoreLink(old(src[lo..hi]))
    ensures src[..lo] == old(src[..lo]) && src[hi..] == old(src[hi..])
  {
    ghost var m := src[lo..hi];
    src[lo + 3] := '<';
    src[hi - 4] := '>';
    NewBrackets(m, src[lo..hi]);
    assert src[lo + 3..hi - 3] == src[lo..hi][3..hi - lo - 3];
    link := ReplaceAll(src[lo + 3..hi - 3], AMP, "&");
  }

  lemma LinkWritten(out: string, rest: string, g: nat)
    requires LinkGroup(rest) == Some(g)
    ensures 8 + g <= |rest|
    ensures out + RestoreLinks(rest) == (out + RestoreLink(rest[..8 + g])) + RestoreLinks(rest[8 + g..])
  {
    LinkLaws.LinkFound(rest, g);
    EscapeLaws.Associate(out, RestoreLink(rest[..8 + g]), RestoreLinks(rest[8 + g..]));
  }

  lemma CharWritten(out: string, rest: string)
    requires rest != "" && LinkGroup(rest) == None
    ensures out + RestoreLinks(rest) == (out + [rest[0]]) + RestoreLinks(rest[1..])
  {
    LinkLaws.LinkStep(rest);
    EscapeLaws.Associate(out, [rest[0]], RestoreLinks(rest[1..]));
  }

  lemma SliceOfRest(src: array<char>, lo: nat, hi: nat, rest: string)
    requires lo <= hi <= src.Length && src[lo..] == rest
    ensures src[lo..hi] == rest[..hi - lo] && src[hi..] == rest[hi - lo..]
  {
  }

  /** escapedLink.ReplaceAllFunc: what is overwritten is never read again. */
  method RestoreLinksIn(src: array<char>) returns (out: string)
    modifies src
    ensures out == RestoreLinks(old(src[..]))
  {
    ghost var was := RestoreLinks(src[..]);
    ghost var rest := src[..];
    out := "";
    var at := 0;
    while at < src.Length
      invariant at <= src.Length
      invariant src[at..] == rest
      invariant out + RestoreLinks(rest) == was
    {
      var found := LinkGroup(src[at..]);
      if found.Some? {
        var end := at + 8 + found.value;
        LinkWritten(out, rest, found.value);
        SliceOfRest(src, at, end, rest);
        rest := rest[8 + found.value..];
        var link := RestoreLinkIn(src, at, end);
        out := out + link;
        at := end;
      } else {
        CharWritten(out, rest);
        rest := rest[1..];
        out := out + [src[at]];
        at := at + 1;
      }
    }
  }

  /** EscapeMessage: what it returns is read back as s exactly if no link of s loses anything. */
  method EscapeMessage(s: string) returns (escaped: string)
    ensures escaped == Escaped(s)
    ensures Decoding.Decode(escaped) == s <==> Decoding.Lossless(EscapeLaws.Lex(s))
  {
    escaped := EscapeAll(s);
    escaped := RestoreUsers(escaped);
    var src := new char[|escaped|](i requires 0 <= i < |escaped| => escaped[i]);
    assert src[..] == escaped;
    escaped := RestoreLinksIn(src);
    Decoding.DecodeUndoesEscapeIff(s);
  }
}
