/** WebDAV addresses: printing a vault slug and a path as an href, and reading
    them back from a request path. Texts are byte strings. */
module WebdavPaths {
  import opened Splitting
  import opened GoPaths
  import opened SafePaths

  predicate IsBytes(s: string) {
    forall i :: 0 <= i < |s| ==> s[i] as int < 256
  }

  // ------------------------------------------------------------ percent-encoding

  /** Written as itself in a path segment: the unreserved characters of RFC 3986
      section 2.3, and those of the reserved ones that Go lets a segment keep. */
  predicate Kept(c: char) {
    'a' <= c <= 'z' || 'A' <= c <= 'Z' || '0' <= c <= '9' || c in {'-', '_', '.', '~', '$', '&', '+', ':', '=', '@'}
  }

  function HexDigit(n: nat): (c: char)
    requires n < 16
  {
    if n < 10 then ('0' as int + n) as char else ('A' as int + n - 10) as char
  }

  predicate IsHex(c: char) {
    '0' <= c <= '9' || 'a' <= c <= 'f' || 'A' <= c <= 'F'
  }

  function HexValue(c: char): (n: nat)
    requires IsHex(c)
    ensures n < 16
  {
    if '0' <= c <= '9' then c as int - '0' as int
    else if 'a' <= c <= 'f' then c as int - 'a' as int + 10
    else c as int - 'A' as int + 10
  }

  function EscapeChar(c: char): string
    requires c as int < 256
  {
    if Kept(c) then [c] else ['%', HexDigit(c as int / 16), HexDigit(c as int % 16)]
  }

  /** url.PathEscape. */
  function Escape(s: string): string
    requires IsBytes(s)
  {
    if s == "" then "" else EscapeChar(s[0]) + Escape(s[1..])
  }

  datatype Decoded = Text(text: string) | Malformed

  function Prepend(c: char, d: Decoded): Decoded {
    match d
    case Text(t) => Text([c] + t)
    case Malformed => Malformed
  }

  /** url.PathUnescape. */
  function Unescape(s: string): Decoded {
    if s == "" then Text("")
    else if s[0] != '%' then Prepend(s[0], Unescape(s[1..]))
    else if |s| < 3 || !IsHex(s[1]) || !IsHex(s[2]) then Malformed
    else Prepend((16 * HexValue(s[1]) + HexValue(s[2])) as char, Unescape(s[3..]))
  }

  predicate Plain(s: string) {
    Without(s, '%')
  }

  lemma {:induction false} UnescapeChar(c: char, more: string)
    requires c as int < 256
    ensures Unescape(EscapeChar(c) + more) == Prepend(c, Unescape(more))
  {
    var coded := EscapeChar(c);
    assert (coded + more)[|coded|..] == more;
    if !Kept(c) {
      assert HexValue(coded[1]) == c as int / 16 && HexValue(coded[2]) == c as int % 16;
    }
  }

  /** Escaped text in front of any other text decodes to what was escaped. */
  lemma {:induction false} UnescapeAfter(s: string, tail: string, rest: string)
    requires IsBytes(s) && Unescape(tail) == Text(rest)
    ensures Unescape(Escape(s) + tail) == Text(s + rest)
    decreases |s|
  {
    if s == "" {
      assert Escape(s) + tail == tail && s + rest == rest;
    } else {
      UnescapeAfter(s[1..], tail, rest);
      UnescapeChar(s[0], Escape(s[1..]) + tail);
      Regroup(EscapeChar(s[0]), Escape(s[1..]), tail);
      Regroup([s[0]], s[1..], rest);
      assert s == [s[0]] + s[1..];
    }
  }

  lemma {:induction false} EscapeShape(s: string)
    requires IsBytes(s)
    ensures Without(Escape(s), '/') && (s != "" ==> Escape(s) != "")
  {
    if s != "" {
      EscapeShape(s[1..]);
    }
  }

  /** Decoding keeps plain text and shortens any other. */
  lemma {:induction false} UnescapeLength(s: string)
    ensures Plain(s) ==> Unescape(s) == Text(s)
    ensures !Plain(s) && Unescape(s).Text? ==> |Unescape(s).text| + 2 <= |s| && Unescape(s).text != ""
  {
    if s != "" && s[0] != '%' {
      UnescapeLength(s[1..]);
      assert s == [s[0]] + s[1..];
      if Plain(s[1..]) {
        assert Plain(s);
      }
    } else if s != "" && |s| >= 3 && IsHex(s[1]) && IsHex(s[2]) {
      UnescapeLength(s[3..]);
    }
  }

  // ------------------------------------------------------------ printing

  function EscapeAll(parts: seq<string>): (r: seq<string>)
    requires forall i :: 0 <= i < |parts| ==> IsBytes(parts[i])
    ensures |r| == |parts|
  {
    seq(|parts|, i requires 0 <= i < |parts| => Escape(parts[i]))
  }

  const TOP := "webdav"

  /** `/webdav/` and the rest. */
  function Under(rest: string): string {
    ['/'] + (TOP + (['/'] + rest))
  }

  function Tail(isDir: bool): string {
    if isDir then "/" else ""
  }

  /** What follows the slug in an href: nothing, or a slash and this. */
  function After(parts: seq<string>, isDir: bool): string {
    if parts == [] then "" else Join(parts, '/') + Tail(isDir)
  }

  /** `/webdav/`, the slug, the path's components, and a slash after a directory
      unless there is nothing to follow. */
  function Href(slug: string, rel: string, isDir: bool): string
    requires IsBytes(slug) && IsBytes(rel)
  {
    BytesOfComponents(rel);
    var parts := Components(rel);
    if parts == [] && (!isDir || slug == "") then Under(Escape(slug))
    else Under(Escape(slug) + ['/'] + After(EscapeAll(parts), isDir))
  }

  lemma {:induction false} BytesOfParts(s: string, c: char)
    requires IsBytes(s)
    ensures forall i :: 0 <= i < |SplitOn(s, c)| ==> IsBytes(SplitOn(s, c)[i])
  {
    if s != "" {
      BytesOfParts(s[1..], c);
    }
  }

  lemma {:induction false} BytesOfWalk(parts: seq<string>, rooted: bool)
    requires forall i :: 0 <= i < |parts| ==> IsBytes(parts[i])
    ensures forall i :: 0 <= i < |Walk([], parts, rooted)| ==> IsBytes(Walk([], parts, rooted)[i])
    decreases |parts|
  {
    if parts != [] {
      BytesOfWalk(parts[..|parts| - 1], rooted);
    }
  }

  lemma BytesOfComponents(rel: string)
    requires IsBytes(rel)
    ensures forall i :: 0 <= i < |Components(rel)| ==> IsBytes(Components(rel)[i])
  {
    BytesOfParts(rel, '/');
    BytesOfWalk(SplitOn(rel, '/'), IsAbs(rel));
  }

  /** What a client addresses by `rel`: its components, never a leading slash. */
  function Normal(rel: string): string {
    Rendered(Components(rel), false)
  }

  // ------------------------------------------------------------ parsing

  datatype Target = Target(slug: string, rel: string) | Invalid

  function TrimPrefix(s: string, prefix: string): string {
    if StartsWith(s, prefix) then s[|prefix|..] else s
  }

  /** The key under which WebDAV locks what follows the slug, once decoded. */
  function DavKey(decoded: string): string {
    if decoded == "" then "." else Clean(decoded)
  }

  function ParsePath(input: string): Target {
    var clean := TrimPrefix(TrimPrefix(input, ['/'] + TOP), "/");
    var first := SplitOn(clean, '/')[0];
    FirstPart(clean, '/');
    if clean == "" then Invalid
    else if Unescape(first).Malformed? || Unescape(first).text == "" then Invalid
    else if |first| + 1 >= |clean| then Target(Unescape(first).text, ".")
    else if Unescape(clean[|first| + 1..]).Malformed? then Invalid
    else Target(Unescape(first).text, DavKey(Unescape(clean[|first| + 1..]).text))
  }

  lemma {:induction false} FirstPart(s: string, c: char)
    ensures |SplitOn(s, c)[0]| <= |s|
    ensures |SplitOn(s, c)[0]| < |s| ==> s == SplitOn(s, c)[0] + [c] + s[|SplitOn(s, c)[0]| + 1..]
  {
    if s != "" && s[0] != c {
      FirstPart(s[1..], c);
    }
  }

  /** What a slug segment and the text after it stand for. */
  function Read(segment: string, raw: string): Target {
    if Unescape(segment).Malformed? || Unescape(segment).text == "" then Invalid
    else if raw == "" then Target(Unescape(segment).text, ".")
    else if Unescape(raw).Malformed? then Invalid
    else Target(Unescape(segment).text, DavKey(Unescape(raw).text))
  }

  lemma Trimmed(rest: string)
    ensures TrimPrefix(TrimPrefix(Under(rest), ['/'] + TOP), "/") == rest
  {
    assert Under(rest)[|TOP| + 1..] == ['/'] + rest;
  }

  lemma ParseSlug(segment: string)
    requires Without(segment, '/')
    ensures ParsePath(Under(segment)) == Read(segment, "")
  {
    Trimmed(segment);
    SplitWithout(segment, '/');
  }

  lemma ParseSplit(segment: string, raw: string)
    requires Without(segment, '/')
    ensures ParsePath(Under(segment + ['/'] + raw)) == Read(segment, raw)
  {
    var clean := segment + ['/'] + raw;
    Trimmed(clean);
    SplitWithout(segment, '/');
    SplitConcat(segment, raw, '/');
    assert clean[|segment| + 1..] == raw;
  }

  // ------------------------------------------------------------ printing, then parsing

  lemma {:induction false} UnescapeJoin(parts: seq<string>, tail: string)
    requires parts != [] && Unescape(tail) == Text(tail)
    requires forall i :: 0 <= i < |parts| ==> IsBytes(parts[i])
    ensures Unescape(Join(EscapeAll(parts), '/') + tail) == Text(Join(parts, '/') + tail)
  {
    if |parts| == 1 {
      UnescapeAfter(parts[0], tail, tail);
    } else {
      var raw, text := Join(EscapeAll(parts[1..]), '/'), Join(parts[1..], '/');
      UnescapeJoin(parts[1..], tail);
      assert EscapeAll(parts)[1..] == EscapeAll(parts[1..]);
      UnescapeSlash(raw + tail);
      UnescapeAfter(parts[0], ['/'] + (raw + tail), ['/'] + (text + tail));
      Reassemble(Escape(parts[0]), raw, tail);
      Reassemble(parts[0], text, tail);
    }
  }

  lemma Reassemble(first: string, rest: string, tail: string)
    ensures first + ['/'] + rest + tail == first + (['/'] + (rest + tail))
  {
    Regroup(first + ['/'], rest, tail);
    Regroup(first, ['/'], rest + tail);
  }

  lemma {:induction false} UnescapeSlash(rest: string)
    ensures Unescape(['/'] + rest) == Prepend('/', Unescape(rest))
  {
    assert (['/'] + rest)[1..] == rest;
  }

  lemma UnescapeTail(isDir: bool)
    ensures Unescape(Tail(isDir)) == Text(Tail(isDir))
  {
    UnescapeLength(Tail(isDir));
  }

  /** A slash after a reduced path does not change what it cleans to. */
  lemma KeyOfAfter(parts: seq<string>, isDir: bool)
    requires AllWithout(parts, '/') && IsReduced(parts, false)
    ensures DavKey(After(parts, isDir)) == Rendered(parts, false)
  {
    if parts != [] {
      RenderedParts(parts);
      RereadRelative(parts);
      var text := Join(parts, '/');
      if isDir {
        SplitConcat(text, "", '/');
        assert text + ['/'] + "" == After(parts, isDir);
        assert (parts + [""])[..|parts|] == parts;
      } else {
        assert text + "" == text;
      }
    }
  }

  lemma {:induction false} ReadBack(slug: string, parts: seq<string>, isDir: bool)
    requires IsBytes(slug) && forall i :: 0 <= i < |parts| ==> IsBytes(parts[i])
    requires AllWithout(parts, '/') && IsReduced(parts, false)
    ensures Read(Escape(slug), After(EscapeAll(parts), isDir)) == if slug == "" then Invalid else Target(slug, Rendered(parts, false))
  {
    UnescapeAll(slug);
    KeyOfAfter(parts, isDir);
    if parts != [] {
      UnescapeTail(isDir);
      UnescapeJoin(parts, Tail(isDir));
      RenderedParts(parts);
      assert Unescape("") == Text("");
    }
  }

  lemma {:induction false} UnescapeAll(s: string)
    requires IsBytes(s)
    ensures Unescape(Escape(s)) == Text(s)
  {
    UnescapeAfter(s, "", "");
    assert Escape(s) + "" == Escape(s) && s + "" == s;
  }

  /** Parsing an href gives back the slug and the path it was printed from. */
  lemma HrefRoundTrip(slug: string, rel: string, isDir: bool)
    requires IsBytes(slug) && IsBytes(rel)
    ensures ParsePath(Href(slug, rel, isDir)) == if slug == "" then Invalid else Target(slug, Normal(rel))
  {
    var parts := Components(rel);
    BytesOfComponents(rel);
    ComponentsShape(rel);
    EscapeShape(slug);
    ReadBack(slug, parts, isDir);
    if parts == [] && (!isDir || slug == "") {
      assert After(EscapeAll(parts), isDir) == "";
      ParseSlug(Escape(slug));
    } else {
      ParseSplit(Escape(slug), After(EscapeAll(parts), isDir));
    }
  }

  /** So a path comes back as it went in exactly when it is relative and clean. */
  lemma HrefRoundTripExact(slug: string, rel: string, isDir: bool)
    requires IsBytes(slug) && IsBytes(rel) && slug != ""
    ensures ParsePath(Href(slug, rel, isDir)) == Target(slug, rel) <==> !IsAbs(rel) && Clean(rel) == rel
  {
    HrefRoundTrip(slug, rel, isDir);
    ComponentsShape(rel);
    RereadRelative(Components(rel));
  }

  // ------------------------------------------------------------ the printing loop

  function Filtered(parts: seq<string>): seq<string> {
    if parts == [] then []
    else if parts[|parts| - 1] == "" || parts[|parts| - 1] == "." then Filtered(parts[..|parts| - 1])
    else Filtered(parts[..|parts| - 1]) + [parts[|parts| - 1]]
  }

  lemma {:induction false} FilteredConcat(a: seq<string>, b: seq<string>)
    ensures Filtered(a + b) == Filtered(a) + Filtered(b)
    decreases |b|
  {
    if b == [] {
      assert a + b == a;
    } else {
      FilteredConcat(a, b[..|b| - 1]);
      assert (a + b)[..|a + b| - 1] == a + b[..|b| - 1];
    }
  }

  lemma {:induction false} FilteredReduced(stack: seq<string>, rooted: bool)
    requires IsReduced(stack, rooted)
    ensures Filtered(stack) == stack
    decreases |stack|
  {
    if stack != [] {
      FilteredReduced(stack[..|stack| - 1], rooted);
    }
  }

  lemma FilteredOne(part: string)
    ensures Filtered([part]) == if part == "" || part == "." then [] else [part]
  {
    assert [part][..0] == [];
  }

  /** Leaving out empty and `.` parts of a cleaned path leaves its components. */
  lemma FilteredClean(rel: string)
    ensures Filtered(SplitOn(Clean(rel), '/')) == Components(rel)
  {
    var stack := Components(rel);
    ComponentsShape(rel);
    FilteredReduced(stack, IsAbs(rel));
    FilteredOne("");
    FilteredOne(".");
    if IsAbs(rel) {
      SplitRooted(stack);
      FilteredConcat([""], if stack == [] then [""] else stack);
    } else if stack == [] {
      SplitWithout(".", '/');
    } else {
      RenderedParts(stack);
    }
  }

  /** The first loop collects exactly the path's components. */
  method HrefParts(slug: string, rel: string) returns (parts: seq<string>)
    ensures parts == ["", TOP] + ([slug] + Components(rel))
  {
    parts := ["", TOP, slug];
    if rel != "." && rel != "" {
      var all := SplitOn(Clean(rel), '/');
      for i := 0 to |all|
        invariant parts == ["", TOP] + ([slug] + Filtered(all[..i]))
      {
        assert all[..i + 1][..i] == all[..i];
        if all[i] != "" && all[i] != "." {
          parts := parts + [all[i]];
        }
      }
      assert all[..|all|] == all;
      FilteredClean(rel);
    } else {
      RereadRelative([]);
      FilteredOne("");
      assert Components("") == [] by {
        assert [""][..0] == [];
      }
    }
  }

  /** The second loop escapes every part but the first. */
  method EscapeParts(parts: seq<string>) returns (escaped: seq<string>)
    requires |parts| > 0 && forall j :: 0 <= j < |parts| ==> IsBytes(parts[j])
    ensures escaped == [parts[0]] + EscapeAll(parts[1..])
  {
    escaped := parts;
    for i := 1 to |parts|
      invariant |escaped| == |parts|
      invariant forall j :: 0 <= j < |parts| ==> escaped[j] == if 1 <= j < i then Escape(parts[j]) else parts[j]
    {
      escaped := escaped[i := Escape(escaped[i])];
    }
  }

  /** The source's two loops print exactly the href. */
  method WebdavHref(slug: string, rel: string, isDir: bool) returns (href: string)
    requires IsBytes(slug) && IsBytes(rel)
    ensures href == Href(slug, rel, isDir)
  {
    BytesOfComponents(rel);
    var parts := HrefParts(slug, rel);
    PartsToHref(slug, Components(rel));
    parts := EscapeParts(parts);
    href := Join(parts, '/');
    SlashOrNot(slug, rel, isDir);
    if isDir && !EndsWithSlash(href) {
      href := href + "/";
    }
  }

  predicate EndsWithSlash(text: string) {
    text != "" && text[|text| - 1] == '/'
  }

  lemma {:induction false} SlashOrNot(slug: string, rel: string, isDir: bool)
    requires IsBytes(slug) && IsBytes(rel) && forall j :: 0 <= j < |Components(rel)| ==> IsBytes(Components(rel)[j])
    ensures var text := Under(Join([Escape(slug)] + EscapeAll(Components(rel)), '/'));
      Href(slug, rel, isDir) == if isDir && !EndsWithSlash(text) then text + "/" else text
  {
    var parts := Components(rel);
    var text := Join([Escape(slug)] + EscapeAll(parts), '/');
    ComponentsShape(rel);
    EndsInSlash(slug, parts);
    UnderTail(text, "/");
    if parts == [] {
      assert [Escape(slug)] + EscapeAll(parts) == [Escape(slug)];
      assert After(EscapeAll(parts), isDir) == "";
      assert Escape(slug) + ['/'] + "" == text + "/";
    } else {
      JoinHead(Escape(slug), EscapeAll(parts), isDir);
    }
  }

  lemma {:induction false} JoinHead(first: string, rest: seq<string>, isDir: bool)
    requires rest != []
    ensures Join([first] + rest, '/') + Tail(isDir) == first + ['/'] + After(rest, isDir)
    ensures Join([first] + rest, '/') + "" == Join([first] + rest, '/')
  {
    assert ([first] + rest)[1..] == rest;
    Regroup(first + ['/'], Join(rest, '/'), Tail(isDir));
  }

  lemma UnderTail(text: string, tail: string)
    ensures Under(text) + tail == Under(text + tail) && Under(text + "") == Under(text)
    ensures Under(text)[|Under(text)| - 1] == (['/'] + text)[|text|]
  {
    assert text + "" == text;
  }

  lemma {:induction false} PartsToHref(slug: string, stack: seq<string>)
    requires IsBytes(slug) && forall j :: 0 <= j < |stack| ==> IsBytes(stack[j])
    ensures var parts := ["", TOP] + ([slug] + stack);
      && (forall j :: 0 <= j < |parts| ==> IsBytes(parts[j]))
      && Join([parts[0]] + EscapeAll(parts[1..]), '/') == Under(Join([Escape(slug)] + EscapeAll(stack), '/'))
  {
    EscapeWebdav();
    TopToHref(TOP, slug, stack);
  }

  lemma {:induction false} TopToHref(top: string, slug: string, stack: seq<string>)
    requires IsBytes(slug) && forall j :: 0 <= j < |stack| ==> IsBytes(stack[j])
    requires IsBytes(top) && Escape(top) == top
    ensures var parts := ["", top] + ([slug] + stack);
      && (forall j :: 0 <= j < |parts| ==> IsBytes(parts[j]))
      && Join([parts[0]] + EscapeAll(parts[1..]), '/')
         == ['/'] + (top + (['/'] + Join([Escape(slug)] + EscapeAll(stack), '/')))
  {
    var plain := [slug] + stack;
    var parts := ["", top] + plain;
    assert parts[1..] == [top] + plain;
    EscapeHead(slug, stack);
    EscapeHead(top, plain);
    var rest := EscapeAll(plain);
    var all := [""] + ([top] + rest);
    assert all[1..] == [top] + rest && all[1..][1..] == rest;
    assert "" + ['/'] == ['/'];
    Regroup(top, ['/'], Join(rest, '/'));
  }

  lemma {:induction false} EscapeHead(first: string, rest: seq<string>)
    requires IsBytes(first) && forall j :: 0 <= j < |rest| ==> IsBytes(rest[j])
    ensures EscapeAll([first] + rest) == [Escape(first)] + EscapeAll(rest)
  {
    assert |EscapeAll([first] + rest)| == |rest| + 1;
  }

  lemma EscapeWebdav()
    ensures Escape(TOP) == TOP && IsBytes(TOP)
  {
    var w := TOP;
    assert w[1..] == "ebdav" && w[2..] == "bdav" && w[3..] == "dav" && w[4..] == "av" && w[5..] == "v" && w[6..] == "";
    assert Escape(w[5..]) == w[5..];
    assert Escape(w[4..]) == w[4..];
    assert Escape(w[3..]) == w[3..];
    assert Escape(w[2..]) == w[2..];
    assert Escape(w[1..]) == w[1..];
  }

  lemma {:induction false} EndsInSlash(slug: string, parts: seq<string>)
    requires IsBytes(slug) && forall i :: 0 <= i < |parts| ==> IsBytes(parts[i]) && parts[i] != ""
    ensures var text := ['/'] + Join([Escape(slug)] + EscapeAll(parts), '/');
      text[|text| - 1] == '/' <==> slug == "" && parts == []
    decreases |parts|
  {
    EscapeShape(slug);
    if parts != [] {
      var tail := [Escape(parts[0])] + EscapeAll(parts[1..]);
      EndsInSlash(parts[0], parts[1..]);
      assert ([Escape(slug)] + EscapeAll(parts))[1..] == tail;
      assert Join([Escape(slug)] + EscapeAll(parts), '/') == Escape(slug) + ['/'] + Join(tail, '/');
    }
  }

  // ------------------------------------------------------------ lock keys

  /** Web and WebDAV lock an accepted path under one key, in whatever spelling it
      reaches WebDAV, except that WebDAV keeps a single slash. */
  lemma {:induction false} SameKey(input: string, allowRoot: bool, slug: string, raw: string)
    requires CleanFilePath(input, allowRoot).Ok?
    requires IsBytes(slug) && slug != "" && Unescape(raw) == Text(input)
    ensures ParsePath(Under(Escape(slug) + ['/'] + raw)) == Target(slug, CleanFilePath(input, allowRoot).path) <==> input != "/"
  {
    SafeExact(input);
    EscapeShape(slug);
    UnescapeAll(slug);
    ParseSplit(Escape(slug), raw);
    UnescapeLength(raw);
    assert Unescape("") == Text("");
    if input == "/" {
      CleanAbsolute("/");
    }
  }

  // ------------------------------------------------------------ as served

  /** The server decodes a request's path before it is parsed, so that an href
      that comes back in a request is decoded twice. */
  function Served(href: string): Target {
    match Unescape(href)
    case Malformed => Invalid
    case Text(path) => ParsePath(path)
  }

  /** Decoding once gives the unescaped href. */
  lemma ServedText(slug: string, rel: string, isDir: bool)
    requires IsBytes(slug) && IsBytes(rel) && slug != ""
    ensures Served(Href(slug, rel, isDir)) == ParsePath(Under(
      if Components(rel) == [] && !isDir then slug else slug + ['/'] + After(Components(rel), isDir)))
  {
    var parts := Components(rel);
    BytesOfComponents(rel);
    UnescapeAll(slug);
    if parts == [] && !isDir {
      UnescapePrefix(Escape(slug));
    } else {
      var raw := After(EscapeAll(parts), isDir);
      if parts != [] {
        UnescapeTail(isDir);
        UnescapeJoin(parts, Tail(isDir));
      }
      assert Unescape(raw) == Text(After(parts, isDir));
      UnescapeSlash(raw);
      UnescapeAfter(slug, ['/'] + raw, ['/'] + After(parts, isDir));
      Regroup(Escape(slug), ['/'], raw);
      Regroup(slug, ['/'], After(parts, isDir));
      UnescapePrefix(Escape(slug) + ['/'] + raw);
    }
  }

  lemma {:induction false} UnescapePrefix(rest: string)
    requires Unescape(rest).Text?
    ensures Unescape(Under(rest)) == Text(Under(Unescape(rest).text))
  {
    UnescapeSlash(rest);
    EscapeWebdav();
    UnescapeAfter(TOP, ['/'] + rest, ['/'] + Unescape(rest).text);
    UnescapeSlash(TOP + (['/'] + rest));
  }

  lemma PlainTail(text: string, isDir: bool)
    ensures Plain(text + Tail(isDir)) <==> Plain(text)
  {
    var raw := text + Tail(isDir);
    assert forall i :: 0 <= i < |text| ==> text[i] == raw[i];
  }

  /** Decoding text that holds a percent sign never leads back to that text's path. */
  lemma {:induction false} CodedElsewhere(raw: string, text: string)
    requires !Plain(raw) && |raw| <= |text| + 1 && !IsAbs(text) && Unescape(raw).Text?
    ensures DavKey(Unescape(raw).text) != text
  {
    var decoded := Unescape(raw).text;
    UnescapeLength(raw);
    if IsAbs(decoded) {
      CleanAbsolute(decoded);
    } else {
      CleanNoLonger(decoded);
    }
  }

  lemma ReadExact(segment: string, parts: seq<string>, isDir: bool)
    requires segment != "" && AllWithout(parts, '/') && IsReduced(parts, false)
    ensures Read(segment, After(parts, isDir)) == Target(segment, Rendered(parts, false))
      <==> Plain(segment) && Plain(Rendered(parts, false))
  {
    var raw := After(parts, isDir);
    UnescapeLength(segment);
    UnescapeLength(raw);
    KeyOfAfter(parts, isDir);
    if parts != [] {
      RenderedParts(parts);
      PlainTail(Rendered(parts, false), isDir);
      if !Plain(raw) && Unescape(raw).Text? {
        CodedElsewhere(raw, Rendered(parts, false));
      }
    }
  }

  /** A slug holding a slash is cut at it. */
  lemma SlugCut(slug: string, rest: string, rel: string)
    requires !Without(slug, '/')
    ensures ParsePath(Under(slug + rest)) != Target(slug, rel)
  {
    var clean := slug + rest;
    Trimmed(clean);
    var first := SplitOn(clean, '/')[0];
    JoinSplit(clean, '/');
    FirstPart(clean, '/');
    var i :| 0 <= i < |slug| && slug[i] == '/';
    assert Without(first, '/') && clean[i] == '/';
    assert forall j :: 0 <= j < |first| ==> first[j] == clean[j];
    assert |first| <= i;
    UnescapeLength(first);
  }

  /** As served, an href leads back to where it was printed from exactly when
      neither the slug nor the path holds a percent sign, nor the slug a slash. */
  lemma ServedExact(slug: string, rel: string, isDir: bool)
    requires IsBytes(slug) && IsBytes(rel) && slug != ""
    ensures Served(Href(slug, rel, isDir)) == Target(slug, Normal(rel))
      <==> Plain(slug) && Without(slug, '/') && Plain(Normal(rel))
  {
    var parts := Components(rel);
    ComponentsShape(rel);
    ServedText(slug, rel, isDir);
    if !Without(slug, '/') {
      SlugCut(slug, "", Normal(rel));
      SlugCut(slug, ['/'] + After(parts, isDir), Normal(rel));
      Regroup(slug, ['/'], After(parts, isDir));
      assert slug + "" == slug;
    } else {
      ParseSlug(slug);
      ParseSplit(slug, After(parts, isDir));
      ReadExact(slug, parts, isDir);
    }
  }

  /** The file `50%.md` is listed under an address that does not lead back to it. */
  lemma PercentNameIsLost()
    ensures Served(Href("notes", "50%.md", false)) != Target("notes", "50%.md")
  {
    var rel := "50%.md";
    SplitWithout(rel, '/');
    WalkNames([], [rel], false);
    assert Normal(rel) == rel && rel[2] == '%';
    ServedExact("notes", rel, false);
  }
}
