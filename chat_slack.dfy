/** The text handling of the Slack front end: markdown is rewritten into
    Slack's mrkdwn by three regular-expression substitutions, access is
    limited to one configured user, and the bot mention is cut from an
    incoming message. Each substitution is modelled as Python's `re.sub`
    scans: left to right, trying the pattern at each position, and going on
    after the end of a match. */
module ChatSlack {

  import opened Common
  import opened Text

  // ----- [text](url) -> <url|text> -----

  datatype Link = Link(text: string, url: string, len: nat)

  /** The pattern `\[([^\]]+)\]\(([^)]+)\)` at the start of `s`: the text
      runs to the first `]`, the url from the `(` right after it to the
      next `)`; both must be non-empty. */
  function LinkAt(s: string): (r: Option<Link>)
    ensures r.Some? ==> 0 < r.value.len <= |s|
  {
    if s == [] || s[0] != '[' then None
    else
      var j := 1 + IndexOf(s[1..], ']');
      if j == 1 || j + 1 >= |s| || s[j + 1] != '(' then None
      else
        var m := j + 2 + IndexOf(s[j + 2..], ')');
        if m == j + 2 || m >= |s| then None
        else Some(Link(s[1..j], s[j + 2..m], m + 1))
  }

  function SubLinks(s: string): string
    decreases |s|
  {
    if s == [] then []
    else
      match LinkAt(s)
      case Some(l) => "<" + l.url + "|" + l.text + ">" + SubLinks(s[l.len..])
      case None => [s[0]] + SubLinks(s[1..])
  }

  // ----- **bold** -> *bold* -----

  /** The pattern `\*\*([^*]+)\*\*` at the start of `s`. */
  function BoldAt(s: string): (r: Option<(string, nat)>)
    ensures r.Some? ==> 0 < r.value.1 <= |s|
  {
    if |s| < 2 || s[0] != '*' || s[1] != '*' then None
    else
      var j := 2 + IndexOf(s[2..], '*');
      if j == 2 || j + 1 >= |s| || s[j + 1] != '*' then None
      else Some((s[2..j], j + 2))
  }

  function SubBold(s: string): string
    decreases |s|
  {
    if s == [] then []
    else
      match BoldAt(s)
      case Some(b) => "*" + b.0 + "*" + SubBold(s[b.1..])
      case None => [s[0]] + SubBold(s[1..])
  }

  // ----- ## Header -> *Header* -----

  /** The length of the leading run of white space. */
  function LeadingSpaces(s: string): (n: nat)
    ensures n <= |s|
    ensures forall i :: 0 <= i < n ==> IsSpace(s[i])
    ensures n < |s| ==> !IsSpace(s[n])
  {
    if s == [] || !IsSpace(s[0]) then 0 else 1 + LeadingSpaces(s[1..])
  }

  /** The last index from `lo` on that holds no newline, or -1. */
  function LastNonNewline(s: string, lo: nat): (r: int)
    ensures r == -1 || (lo <= r < |s| && s[r] != '\n')
    ensures forall i :: r < i < |s| && lo <= i ==> s[i] == '\n'
    decreases |s|
  {
    if |s| <= lo then -1
    else if s[|s| - 1] != '\n' then |s| - 1
    else LastNonNewline(s[..|s| - 1], lo)
  }

  /** The pattern `^<hashes>\s+(.+)$` (multi-line mode) at the start of a
      line: the hashes, a run of white space (which may cross line
      breaks), then the rest of a line, which becomes the capture. When the
      white space runs to the end of the text the engine backtracks and the
      capture is its last character that is not a newline. The match ends
      at the end of the captured line. */
  function HeaderAt(s: string, hashes: string): (r: Option<(string, nat)>)
    ensures r.Some? ==> 0 < r.value.1 <= |s| && r.value.0 != []
  {
    if !(hashes <= s) then None
    else
      var h := |hashes|;
      var q := h + LeadingSpaces(s[h..]);
      if q == h then None
      else if q < |s| then
        var e := q + IndexOf(s[q..], '\n');
        Some((s[q..e], e))
      else
        var last := LastNonNewline(s, h + 1);
        if last < 0 then None else Some((s[last..last + 1], last + 1))
  }

  /** `re.sub` of the header pattern; `lineStart` says whether `^` can
      match at the current position. */
  function SubHeaders(s: string, hashes: string, lineStart: bool): string
    decreases |s|
  {
    if s == [] then []
    else
      match (if lineStart then HeaderAt(s, hashes) else None)
      case Some(m) => "*" + m.0 + "*" + SubHeaders(s[m.1..], hashes, false)
      case None => [s[0]] + SubHeaders(s[1..], hashes, s[0] == '\n')
  }

  /** `format_for_slack`: links, then bold, then `##` and `#` headers. */
  function FormatForSlack(text: string): string
  {
    SubHeaders(SubHeaders(SubBold(SubLinks(text)), "##", true), "#", true)
  }

  // ----- properties of the rewrites -----

  /** Text without `[` has no link to rewrite. */
  lemma {:induction false} LinksPlain(s: string)
    requires '[' !in s
    ensures SubLinks(s) == s
  {
    if s != [] {
      assert s[1..] <= s[1..];
      assert forall c :: c in s[1..] ==> c in s;
      LinksPlain(s[1..]);
    }
  }

  /** Text without `*` has no bold to rewrite. */
  lemma {:induction false} BoldPlain(s: string)
    requires '*' !in s
    ensures SubBold(s) == s
  {
    if s != [] {
      assert forall c :: c in s[1..] ==> c in s;
      BoldPlain(s[1..]);
    }
  }

  /** Text without `#` has no header to rewrite. */
  lemma {:induction false} HeadersPlain(s: string, hashes: string, lineStart: bool)
    requires '#' !in s && hashes != [] && hashes[0] == '#'
    ensures SubHeaders(s, hashes, lineStart) == s
  {
    if s != [] {
      assert forall c :: c in s[1..] ==> c in s;
      HeadersPlain(s[1..], hashes, s[0] == '\n');
    }
  }

  /** Text with no link, bold or header markup is sent unchanged. */
  lemma PlainTextUnchanged(text: string)
    requires '[' !in text && '*' !in text && '#' !in text
    ensures FormatForSlack(text) == text
  {
    LinksPlain(text);
    BoldPlain(text);
    HeadersPlain(text, "##", true);
    HeadersPlain(text, "#", true);
  }

  /** `IndexOf` finds the first occurrence. */
  lemma IndexOfAt(s: string, c: char, k: nat)
    requires k < |s| && s[k] == c && c !in s[..k]
    ensures IndexOf(s, c) == k
  {
  }

  lemma LinkFound(t: string, u: string, rest: string)
    requires t != [] && ']' !in t && u != [] && ')' !in u
    ensures LinkAt("[" + t + "](" + u + ")" + rest) == Some(Link(t, u, |t| + |u| + 4))
  {
    var s := "[" + t + "](" + u + ")" + rest;
    assert s[1..][..|t|] == t;
    IndexOfAt(s[1..], ']', |t|);
    var j := |t| + 1;
    assert s[j + 1] == '(';
    assert s[j + 2..][..|u|] == u;
    IndexOfAt(s[j + 2..], ')', |u|);
    assert s[1..j] == t;
    assert s[j + 2..j + 2 + |u|] == u;
  }

  /** A markdown link whose text has no `]` and whose url has no `)` is
      rewritten into Slack's `<url|text>`. */
  lemma LinkRewritten(t: string, u: string, rest: string)
    requires t != [] && ']' !in t && u != [] && ')' !in u
    ensures SubLinks("[" + t + "](" + u + ")" + rest) == "<" + u + "|" + t + ">" + SubLinks(rest)
  {
    var s := "[" + t + "](" + u + ")" + rest;
    LinkFound(t, u, rest);
    assert s[|t| + |u| + 4..] == rest;
  }

  /** `**x**`, with no `*` in a non-empty `x`, becomes `*x*`. */
  lemma BoldRewritten(x: string, rest: string)
    requires x != [] && '*' !in x
    ensures SubBold("**" + x + "**" + rest) == "*" + x + "*" + SubBold(rest)
  {
    var s := "**" + x + "**" + rest;
    var j := 2 + IndexOf(s[2..], '*');
    assert s[2..][|x|] == '*';
    assert s[2..][..|x|] == x;
    assert j == |x| + 2;
    assert s[2..j] == x;
    assert s[j + 2..] == rest;
  }

  /** A one-line header `## Title` (or `# Title`) becomes `*Title*`. */
  lemma HeaderRewritten(hashes: string, title: string)
    requires hashes != [] && title != [] && !IsSpace(title[0]) && '\n' !in title
    ensures SubHeaders(hashes + " " + title, hashes, true) == "*" + title + "*"
  {
    var s := hashes + " " + title;
    var h := |hashes|;
    assert s[h..] == [' '] + title;
    assert LeadingSpaces(s[h..]) == 1 by {
      assert s[h..][1..] == title;
    }
    var q := h + 1;
    assert s[q..] == title;
    assert IndexOf(title, '\n') == |title|;
    assert s[q..|s|] == title;
    assert s[|s|..] == [];
  }

  /** A `###` line matches neither header pattern and is sent as is. */
  lemma TripleHashUntouched(rest: string)
    requires '\n' !in rest
    ensures SubHeaders("###" + rest, "##", true) == "###" + rest
    ensures SubHeaders("###" + rest, "#", true) == "###" + rest
  {
    var s := "###" + rest;
    assert s[2..][0] == '#' && s[1..][0] == '#';
    assert HeaderAt(s, "##") == None;
    assert HeaderAt(s, "#") == None;
    assert s[1..] == "##" + rest;
    NoLineStartUnchanged(s[1..], "##");
    NoLineStartUnchanged(s[1..], "#");
  }

  /** Without a line break no header can start after the first position. */
  lemma {:induction false} NoLineStartUnchanged(s: string, hashes: string)
    requires '\n' !in s
    ensures SubHeaders(s, hashes, false) == s
  {
    if s != [] {
      assert forall c :: c in s[1..] ==> c in s;
      NoLineStartUnchanged(s[1..], hashes);
    }
  }

  /** The white space after `##` may cross a line break: a bare `##` line
      takes the next line as its title. */
  lemma HeaderSwallowsLineBreak()
    ensures SubHeaders("##\nNews", "##", true) == "*News*"
  {
    var s := "##\nNews";
    assert s[2..] == "\nNews";
    assert LeadingSpaces(s[2..]) == 1 by {
      assert s[2..][1..] == "News";
    }
    assert s[3..] == "News";
    assert IndexOf("News", '\n') == 4;
    assert s[3..7] == "News";
    assert s[7..] == [];
  }

  // ----- access and mentions -----

  /** `is_user_authorized`: with no allowed id configured (unset or
      empty) nobody is let in; otherwise exactly the configured user. */
  function IsUserAuthorized(userId: string, allowed: Option<string>): (r: bool)
    ensures allowed.None? || allowed == Some("") ==> !r
    ensures r <==> allowed.Some? && allowed.value != "" && userId == allowed.value
  {
    if allowed.None? || allowed.value == "" then false else userId == allowed.value
  }

  /** The message of an app mention: the trimmed text after the first `>`
      (the end of the `<@bot>` tag), or the whole trimmed text. */
  function StripMention(text: string): (r: string)
    ensures r == [] || (!IsSpace(r[0]) && !IsSpace(r[|r| - 1]))
  {
    var k := IndexOf(text, '>');
    if k < |text| then Strip(text[k + 1..]) else Strip(text)
  }

  /** The bot tag is cut and the rest trimmed. */
  lemma MentionStripped(rest: string)
    requires '>' !in rest
    ensures StripMention("<@U1> " + rest) == Strip(" " + rest)
  {
    var text := "<@U1> " + rest;
    assert text[4] == '>';
    forall i | 0 <= i < 4 ensures text[i] != '>' {
      assert text[i] == "<@U1"[i];
    }
    assert IndexOf(text, '>') == 4;
    assert text[5..] == " " + rest;
  }
}
