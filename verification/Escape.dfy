/** slack/util.go: escaping a message for Slack and restoring the user references and links in it. */
module Escape {
  import opened Text

  const AMP := "&amp;"
  const LT := "&lt;"
  const GT := "&gt;"

  function EscapeChar(c: char): string {
    if c == '<' then LT else if c == '>' then GT else if c == '&' then AMP else [c]
  }

  /** replacer.Replace: every character on its own */
  function EscapeAll(s: string): string {
    if s == "" then "" else EscapeChar(s[0]) + EscapeAll(s[1..])
  }

  /** If e starts with &lt;(@id\|name)&gt;, the length of the group. */
  function UserGroup(e: string): (g: Option<nat>)
    ensures g.Some? ==> g.value + 8 <= |e| && g.value > 0
  {
    if !("&lt;@" <= e) then None
    else
      match MatchIdName(e[5..], GT)
      case Some((n, m)) => Some(2 + n + m)
      case None => None
  }

  /** escapedUserReference.ReplaceAll(e, "<${1}>") */
  function RestoreUsers(e: string): string
    decreases |e|
  {
    if e == "" then ""
    else
      match UserGroup(e)
      case Some(g) => "<" + e[4..4 + g] + ">" + RestoreUsers(e[8 + g..])
      case None => [e[0]] + RestoreUsers(e[1..])
  }

  /** The class \s of the regexp package; \S is every other character. */
  predicate IsRegexpSpace(c: char) { c in "\t\n\r " || c as int == 0x0C }

  /** The number of characters before the first &gt; in e, all of them \S; with `some`, at least one. */
  function CloseAt(e: string, some: bool): (n: Option<nat>)
    ensures n.Some? ==> n.value + 4 <= |e|
  {
    if e == "" then None
    else if !some && GT <= e then Some(0)
    else if IsRegexpSpace(e[0]) then None
    else
      match CloseAt(e[1..], false)
      case Some(n) => Some(1 + n)
      case None => None
  }

  /** The length of a leading http:// or https:// */
  function Scheme(e: string): (n: nat)
    ensures n == 0 || (n == 7 && "http://" <= e) || (n == 8 && "https://" <= e)
  {
    if "http://" <= e then 7 else if "https://" <= e then 8 else 0
  }

  /** If u starts with https?://\S+?&gt;, the length of what stands before the &gt;. */
  function LinkInside(u: string): (g: Option<nat>)
    ensures g.Some? ==> g.value > 0 && g.value + 4 <= |u|
  {
    var p := Scheme(u);
    if p == 0 then None
    else
      match CloseAt(u[p..], true)
      case Some(n) => Some(p + n)
      case None => None
  }

  /** If e starts with &lt;(https?://\S+?)&gt;, the length of the group. */
  function LinkGroup(e: string): (g: Option<nat>)
    ensures g.Some? ==> g.value > 0 && g.value + 8 <= |e|
  {
    if LT <= e then LinkInside(e[4..]) else None
  }

  /** What one restored link looks like: the match m of escapedLink without its escaped brackets. */
  function RestoreLink(m: string): string
    requires |m| >= 8
  {
    ReplaceAll("<" + m[4..|m| - 4] + ">", AMP, "&")
  }

  /** escapedLink.ReplaceAllFunc(e, ...) */
  function RestoreLinks(e: string): string
    decreases |e|
  {
    if e == "" then ""
    else
      match LinkGroup(e)
      case Some(g) => RestoreLink(e[..8 + g]) + RestoreLinks(e[8 + g..])
      case None => [e[0]] + RestoreLinks(e[1..])
  }

  function Escaped(s: string): string {
    RestoreLinks(RestoreUsers(EscapeAll(s)))
  }
}
