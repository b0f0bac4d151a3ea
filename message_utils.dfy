/** `src/utils/messageUtils.ts`: splitting a message into plain text and
    shop links, and the read-status mark. The one regular expression of the
    tokenizer, `localhost(?::\d+)?/shop/([a-zA-Z0-9-]+)` searched globally,
    is matched by hand: `MatchAt` is the match starting at one position
    (greedy, as the expression engine finds it) and `FindMatch` the leftmost
    match from a position, as `exec` on a global expression finds it. */
module MessageUtils {
  import opened Common

  // ---------------------------------------------------------------------
  // The pattern

  const Host := "localhost"
  const ShopPath := "/shop/"

  /** `[a-zA-Z0-9-]` */
  predicate IsSlugChar(c: char)
  {
    'a' <= c <= 'z' || 'A' <= c <= 'Z' || '0' <= c <= '9' || c == '-'
  }

  /** The optional port part `(?::\d+)?`. */
  predicate IsPort(p: string)
  {
    p == [] || (|p| >= 2 && p[0] == ':' && forall k :: 1 <= k < |p| ==> IsDigit(p[k]))
  }

  /** The captured slug `[a-zA-Z0-9-]+`. */
  predicate IsSlug(slug: string)
  {
    |slug| >= 1 && forall k :: 0 <= k < |slug| ==> IsSlugChar(slug[k])
  }

  /** The length of the longest run of characters satisfying `p` from `j`:
      what a greedy `+` or `*` consumes. */
  function Run(s: string, j: nat, p: char -> bool): (n: nat)
    requires j <= |s|
    ensures j + n <= |s|
    ensures forall k :: j <= k < j + n ==> p(s[k])
    ensures j + n == |s| || !p(s[j + n])
    decreases |s| - j
  {
    if j < |s| && p(s[j]) then 1 + Run(s, j + 1, p) else 0
  }

  /** A run is at least as long as any stretch of satisfying characters,
      and exactly as long when an unsatisfying character ends the stretch. */
  lemma {:induction false} RunCovers(s: string, j: nat, n: nat, p: char -> bool)
    requires j + n <= |s|
    requires forall k :: j <= k < j + n ==> p(s[k])
    ensures Run(s, j, p) >= n
    ensures j + n < |s| && !p(s[j + n]) ==> Run(s, j, p) == n
    decreases n
  {
    if n > 0 {
      RunCovers(s, j + 1, n - 1, p);
    }
  }

  /** Where a match starts, where its slug starts, and where it ends. */
  datatype LinkMatch = LinkMatch(start: nat, slugStart: nat, end: nat)

  /** The match of the pattern starting at `i`, if any. */
  function MatchAt(s: string, i: nat): (r: Option<LinkMatch>)
    requires i <= |s|
    ensures r.Some? ==> r.value.start == i && i + 15 <= r.value.slugStart < r.value.end <= |s|
  {
    if !(i + 9 <= |s| && s[i..i + 9] == Host) then None
    else
      var j := i + 9;
      var port := if j < |s| && s[j] == ':' then Run(s, j + 1, IsDigit) + 1 else 0;
      var p := j + port;
      if port == 1 then None
      else if !(p + 6 <= |s| && s[p..p + 6] == ShopPath) then None
      else
        var n := Run(s, p + 6, IsSlugChar);
        if n == 0 then None
        else Some(LinkMatch(i, p + 6, p + 6 + n))
  }

  /** Every match found is an occurrence of the pattern: the host, a port,
      the shop path and a slug, which no slug character follows. */
  lemma MatchAtSound(s: string, i: nat)
    requires i <= |s| && MatchAt(s, i).Some?
    ensures var m := MatchAt(s, i).value;
            s[i..i + 9] == Host &&
            IsPort(s[i + 9..m.slugStart - 6]) &&
            s[m.slugStart - 6..m.slugStart] == ShopPath &&
            IsSlug(s[m.slugStart..m.end]) &&
            (m.end == |s| || !IsSlugChar(s[m.end]))
  {
    var m := MatchAt(s, i).value;
    var port := s[i + 9..m.slugStart - 6];
    if port != [] {
      assert s[i + 9] == ':';
      forall k | 1 <= k < |port|
        ensures IsDigit(port[k])
      {
        assert port[k] == s[i + 9 + k];
      }
    }
    var slug := s[m.slugStart..m.end];
    forall k | 0 <= k < |slug|
      ensures IsSlugChar(slug[k])
    {
      assert slug[k] == s[m.slugStart + k];
    }
  }

  /** Every occurrence of the pattern is found: wherever a host, a port, the
      shop path and a slug follow one another, a match starts there, and
      its slug is at least as long. */
  lemma MatchAtComplete(s: string, i: nat, port: string, slug: string)
    requires IsPort(port) && IsSlug(slug)
    requires i + |Host + port + ShopPath + slug| <= |s|
    requires s[i..i + |Host + port + ShopPath + slug|] == Host + port + ShopPath + slug
    ensures MatchAt(s, i).Some?
    ensures MatchAt(s, i).value.slugStart == i + |Host| + |port| + |ShopPath|
    ensures MatchAt(s, i).value.end >= i + |Host + port + ShopPath + slug|
  {
    var j := i + |Host|;
    var p := j + |port|;
    var q := p + |ShopPath|;
    SliceSplits(s, i, Host + port + ShopPath, slug);
    SliceSplits(s, i, Host + port, ShopPath);
    SliceSplits(s, i, Host, port);
    assert s[p] == '/' by {
      assert s[p..q][0] == ShopPath[0];
    }
    SliceChars(s, q, slug, 0, IsSlugChar);
    if port != [] {
      assert s[j] == ':' by {
        assert s[j..p][0] == port[0];
      }
      SliceChars(s, j, port, 1, IsDigit);
    }
    MatchFromPieces(s, i, |port|, |slug|);
  }

  /** What holds of the characters of a piece holds of the text where the
      piece occurs. */
  lemma SliceChars(s: string, q: nat, t: string, from: nat, p: char -> bool)
    requires q + |t| <= |s| && s[q..q + |t|] == t
    requires forall k :: from <= k < |t| ==> p(t[k])
    ensures forall k :: q + from <= k < q + |t| ==> p(s[k])
  {
    forall k | q + from <= k < q + |t|
      ensures p(s[k])
    {
      assert s[k] == s[q..q + |t|][k - q];
    }
  }

  /** A slice equal to a concatenation splits into slices equal to its
      parts. */
  lemma SliceSplits(s: string, i: nat, a: string, b: string)
    requires i + |a + b| <= |s| && s[i..i + |a + b|] == a + b
    ensures s[i..i + |a|] == a && s[i + |a|..i + |a + b|] == b
  {
    assert s[i..i + |a|] == s[i..i + |a + b|][..|a|];
    assert s[i + |a|..i + |a + b|] == s[i..i + |a + b|][|a|..];
    assert (a + b)[..|a|] == a && (a + b)[|a|..] == b;
  }

  /** The match found where the host, a port of `portLen` characters, the
      shop path and `slugLen` slug characters follow one another. */
  lemma MatchFromPieces(s: string, i: nat, portLen: nat, slugLen: nat)
    requires i + 9 + portLen + 6 + slugLen <= |s| && slugLen >= 1
    requires s[i..i + 9] == Host
    requires s[i + 9 + portLen..i + 9 + portLen + 6] == ShopPath && s[i + 9 + portLen] == '/'
    requires forall k :: i + 15 + portLen <= k < i + 15 + portLen + slugLen ==> IsSlugChar(s[k])
    requires portLen == 0 || (portLen >= 2 && s[i + 9] == ':' &&
                              forall k :: i + 10 <= k < i + 9 + portLen ==> IsDigit(s[k]))
    ensures MatchAt(s, i).Some?
    ensures MatchAt(s, i).value.slugStart == i + 15 + portLen
    ensures MatchAt(s, i).value.end >= i + 15 + portLen + slugLen
  {
    var j := i + 9;
    var q := j + portLen + 6;
    if portLen > 0 {
      RunCovers(s, j + 1, portLen - 1, IsDigit);
    }
    RunCovers(s, q, slugLen, IsSlugChar);
  }

  /** The leftmost match at or after `from`. */
  function FindMatch(s: string, from: nat): (r: Option<LinkMatch>)
    requires from <= |s|
    ensures r.None? ==> forall i :: from <= i <= |s| ==> MatchAt(s, i).None?
    ensures r.Some? ==> from <= r.value.start <= |s| && MatchAt(s, r.value.start) == r &&
                        forall i :: from <= i < r.value.start ==> MatchAt(s, i).None?
    decreases |s| - from
  {
    var m := MatchAt(s, from);
    if m.Some? then m
    else if from == |s| then None
    else
      var r := FindMatch(s, from + 1);
      NoMatchExtends(s, from, if r.Some? then r.value.start else |s| + 1);
      r
  }

  /** No match in `from + 1 .. to` and none at `from`: none in `from .. to`. */
  lemma NoMatchExtends(s: string, from: nat, to: nat)
    requires from < |s| && MatchAt(s, from).None?
    requires forall i :: from + 1 <= i < to && i <= |s| ==> MatchAt(s, i).None?
    ensures forall i :: from <= i < to && i <= |s| ==> MatchAt(s, i).None?
  {
  }

  /** A match inside a piece of a text is a match in the whole text. */
  lemma MatchInSlice(s: string, a: nat, b: nat, i: nat)
    requires a <= b <= |s| && i <= b - a
    requires MatchAt(s[a..b], i).Some?
    ensures MatchAt(s, a + i).Some?
  {
    var port, slug := PiecesOfSliceMatch(s, a, b, i);
    MatchAtComplete(s, a + i, port, slug);
  }

  /** The port and slug of a match inside a piece of a text, found at the
      same place in the whole text. */
  lemma PiecesOfSliceMatch(s: string, a: nat, b: nat, i: nat) returns (port: string, slug: string)
    requires a <= b <= |s| && i <= b - a
    requires MatchAt(s[a..b], i).Some?
    ensures IsPort(port) && IsSlug(slug)
    ensures a + i + |Host + port + ShopPath + slug| <= |s|
    ensures s[a + i..a + i + |Host + port + ShopPath + slug|] == Host + port + ShopPath + slug
  {
    var t := s[a..b];
    port, slug := MatchPieces(t, i);
    SliceOfSlice(s, a, b, i, MatchAt(t, i).value.end);
  }

  /** The text of a match cut into the host, the port, the shop path and
      the slug. */
  lemma MatchPieces(s: string, i: nat) returns (port: string, slug: string)
    requires i <= |s| && MatchAt(s, i).Some?
    ensures var m := MatchAt(s, i).value;
            IsPort(port) && IsSlug(slug) && slug == s[m.slugStart..m.end] &&
            s[i..m.end] == Host + port + ShopPath + slug
  {
    var m := MatchAt(s, i).value;
    port := s[i + 9..m.slugStart - 6];
    slug := s[m.slugStart..m.end];
    MatchAtSound(s, i);
    SliceInFour(s, i, i + 9, m.slugStart - 6, m.slugStart, m.end);
    assert s[i..m.end] == s[i..i + 9] + port + s[m.slugStart - 6..m.slugStart] + slug;
  }

  lemma SliceInFour(t: string, a: nat, b: nat, c: nat, d: nat, e: nat)
    requires a <= b <= c <= d <= e <= |t|
    ensures t[a..e] == t[a..b] + t[b..c] + t[c..d] + t[d..e]
  {
    assert t[a..e] == t[a..b] + t[b..e];
    assert t[b..e] == t[b..c] + t[c..e];
    assert t[c..e] == t[c..d] + t[d..e];
  }

  lemma SliceOfSlice(s: string, a: nat, b: nat, i: nat, j: nat)
    requires a <= b <= |s| && i <= j <= b - a
    ensures s[a..b][i..j] == s[a + i..a + j]
  {
    forall k | 0 <= k < j - i
      ensures s[a..b][i..j][k] == s[a + i..a + j][k]
    {
      assert s[a..b][i..j][k] == s[a..b][i + k] == s[a + i + k];
    }
  }

  // ---------------------------------------------------------------------
  // Segments

  /** `{ text, isShopLink: false }` or `{ text, isShopLink: true, slug }`. */
  datatype Part = Plain(text: string) | Link(text: string, slug: string)

  /** The texts of the parts, concatenated. */
  function Joined(parts: seq<Part>): string
  {
    if parts == [] then [] else parts[0].text + Joined(parts[1..])
  }

  lemma {:induction false} JoinedAppend(a: seq<Part>, b: seq<Part>)
    ensures Joined(a + b) == Joined(a) + Joined(b)
  {
    if a == [] {
      assert a + b == b;
    } else {
      assert (a + b)[0] == a[0];
      assert (a + b)[1..] == a[1..] + b;
      JoinedAppend(a[1..], b);
    }
  }

  /** No match of the pattern starts anywhere in `t`. */
  predicate NoLinkIn(t: string)
  {
    forall i :: 0 <= i <= |t| ==> MatchAt(t, i).None?
  }

  /** A link text is the host, an optional port, the shop path and the
      slug, in this order. */
  ghost predicate LinkShaped(text: string, slug: string)
  {
    IsSlug(slug) &&
    exists port :: IsPort(port) && text == Host + port + ShopPath + slug
  }

  ghost predicate GoodPart(p: Part)
  {
    match p
    case Plain(t) => t != [] && NoLinkIn(t)
    case Link(t, slug) => LinkShaped(t, slug)
  }

  /** Two plain parts never follow each other, and the part after a link
      does not start with a slug character (the slug is maximal). */
  predicate GoodNeighbours(p: Part, q: Part)
  {
    !(p.Plain? && q.Plain?) && (p.Link? ==> q.text != [] && !IsSlugChar(q.text[0]))
  }

  ghost predicate WellFormed(parts: seq<Part>)
  {
    (forall k :: 0 <= k < |parts| ==> GoodPart(parts[k])) &&
    (forall k :: 0 <= k < |parts| - 1 ==> GoodNeighbours(parts[k], parts[k + 1]))
  }

  /** The parts the search produces from `from` on. */
  function TokensFrom(s: string, from: nat): seq<Part>
    requires from <= |s|
    decreases |s| - from
  {
    match FindMatch(s, from)
    case None => if from < |s| then [Plain(s[from..])] else []
    case Some(m) =>
      (if m.start > from then [Plain(s[from..m.start])] else []) +
      [Link(s[m.start..m.end], s[m.slugStart..m.end])] +
      TokensFrom(s, m.end)
  }

  /** `detectShopLinks(content)` */
  function ShopLinkParts(content: string): seq<Part>
  {
    var parts := TokensFrom(content, 0);
    if parts == [] then [Plain(content)] else parts
  }

  /** The tokens from `from` spell out the rest of the text. */
  lemma {:induction false} TokensJoin(s: string, from: nat)
    requires from <= |s|
    ensures Joined(TokensFrom(s, from)) == s[from..]
    decreases |s| - from
  {
    match FindMatch(s, from)
    case None =>
      if from < |s| {
        assert Joined([Plain(s[from..])]) == s[from..] + Joined([]);
      }
    case Some(m) =>
      var pre := if m.start > from then [Plain(s[from..m.start])] else [];
      var link := [Link(s[m.start..m.end], s[m.slugStart..m.end])];
      var rest := TokensFrom(s, m.end);
      assert TokensFrom(s, from) == pre + link + rest;
      TokensJoin(s, m.end);
      assert Joined(link) == s[m.start..m.end] + Joined([]);
      if m.start > from {
        assert Joined(pre) == s[from..m.start] + Joined([]);
      }
      JoinThree(s, from, m.start, m.end, pre, link, rest);
  }

  lemma JoinThree(s: string, a: nat, b: nat, c: nat, pre: seq<Part>, mid: seq<Part>, rest: seq<Part>)
    requires a <= b <= c <= |s|
    requires Joined(pre) == s[a..b] && Joined(mid) == s[b..c] && Joined(rest) == s[c..]
    ensures Joined(pre + mid + rest) == s[a..]
  {
    JoinedAppend(pre + mid, rest);
    JoinedAppend(pre, mid);
    assert s[a..] == s[a..b] + s[b..c] + s[c..];
  }

  /** A match found in `s` gives a well-shaped link part. */
  lemma MatchIsLinkShaped(s: string, m: LinkMatch)
    requires m.start <= |s| && MatchAt(s, m.start) == Some(m)
    ensures GoodPart(Link(s[m.start..m.end], s[m.slugStart..m.end]))
  {
    var port, slug := MatchPieces(s, m.start);
    assert IsPort(port) && s[m.start..m.end] == Host + port + ShopPath + slug;
  }

  /** A stretch of `s` in which no match starts is a clean plain part. */
  lemma StretchIsClean(s: string, a: nat, b: nat)
    requires a < b <= |s|
    requires forall i :: a <= i < b ==> MatchAt(s, i).None?
    ensures GoodPart(Plain(s[a..b]))
  {
    forall i | 0 <= i <= b - a
      ensures MatchAt(s[a..b], i).None?
    {
      if i < b - a && MatchAt(s[a..b], i).Some? {
        MatchInSlice(s, a, b, i);
      }
    }
  }

  /** The tokens from `from` are well formed, start with the character at
      `from`, and are empty only at the end of the text. */
  lemma {:induction false} TokensWellFormed(s: string, from: nat)
    requires from <= |s|
    ensures var parts := TokensFrom(s, from);
            WellFormed(parts) &&
            (parts == [] <==> from == |s|) &&
            (parts != [] ==> parts[0].text != [] && parts[0].text[0] == s[from])
    decreases |s| - from
  {
    match FindMatch(s, from)
    case None =>
      if from < |s| {
        StretchIsClean(s, from, |s|);
        assert s[from..] == s[from..|s|];
      }
    case Some(m) =>
      var pre := if m.start > from then [Plain(s[from..m.start])] else [];
      var link := Link(s[m.start..m.end], s[m.slugStart..m.end]);
      var rest := TokensFrom(s, m.end);
      assert TokensFrom(s, from) == pre + [link] + rest;
      TokensWellFormed(s, m.end);
      MatchIsLinkShaped(s, m);
      MatchAtSound(s, m.start);
      if m.start > from {
        StretchIsClean(s, from, m.start);
      }
      WellFormedAround(pre, link, rest);
  }

  /** A link between an optional clean plain part and well-formed parts
      that do not start with a slug character gives well-formed parts. */
  lemma WellFormedAround(pre: seq<Part>, link: Part, rest: seq<Part>)
    requires pre == [] || (|pre| == 1 && pre[0].Plain? && GoodPart(pre[0]))
    requires link.Link? && GoodPart(link)
    requires WellFormed(rest)
    requires rest != [] ==> rest[0].text != [] && !IsSlugChar(rest[0].text[0])
    ensures WellFormed(pre + [link] + rest)
  {
    var parts := pre + [link] + rest;
    forall k | 0 <= k < |parts|
      ensures GoodPart(parts[k])
    {
      if k >= |pre| + 1 {
        assert parts[k] == rest[k - |pre| - 1];
      }
    }
    forall k | 0 <= k < |parts| - 1
      ensures GoodNeighbours(parts[k], parts[k + 1])
    {
      if k == |pre| {
        assert parts[k + 1] == rest[0];
      } else if k > |pre| {
        assert parts[k] == rest[k - |pre| - 1] && parts[k + 1] == rest[k - |pre|];
      }
    }
  }

  /** What `detectShopLinks` promises: the parts spell out the content, there
      is at least one, a content without a link is a single plain part, and
      a non-empty content gives well-formed parts. */
  lemma ShopLinkPartsProperties(content: string)
    ensures var parts := ShopLinkParts(content);
            Joined(parts) == content &&
            |parts| > 0 &&
            (NoLinkIn(content) ==> parts == [Plain(content)]) &&
            (content == [] ==> parts == [Plain([])]) &&
            (content != [] ==> WellFormed(parts))
  {
    TokensJoin(content, 0);
    TokensWellFormed(content, 0);
    assert content[0..] == content;
    var parts := ShopLinkParts(content);
    if parts == [Plain(content)] {
      assert Joined(parts) == content + Joined([]);
    }
    if NoLinkIn(content) && content != [] {
      assert FindMatch(content, 0).None?;
    }
  }

  lemma Regroup(a: seq<Part>, b: seq<Part>, c: seq<Part>, d: seq<Part>)
    ensures a + b + c + d == a + (b + c + d)
  {
  }

  /** `detectShopLinks`: the `while ((match = regex.exec(content)) !== null)`
      loop, with `lastIndex` advanced past each match. */
  method DetectShopLinks(content: string) returns (parts: seq<Part>)
    ensures parts == ShopLinkParts(content)
  {
    parts := [];
    var lastIndex := 0;
    var m := FindMatch(content, 0);
    while m.Some?
      invariant 0 <= lastIndex <= |content|
      invariant m == FindMatch(content, lastIndex)
      invariant parts + TokensFrom(content, lastIndex) == TokensFrom(content, 0)
      decreases |content| - lastIndex
    {
      var found := m.value;
      var before := if found.start > lastIndex then [Plain(content[lastIndex..found.start])] else [];
      var link := Link(content[found.start..found.end], content[found.slugStart..found.end]);
      ghost var rest := TokensFrom(content, found.end);
      assert TokensFrom(content, lastIndex) == before + [link] + rest;
      ghost var done := parts;
      if found.start > lastIndex {
        parts := parts + [Plain(content[lastIndex..found.start])];
      }
      parts := parts + [link];
      assert parts == done + before + [link];
      Regroup(done, before, [link], rest);
      lastIndex := found.end;
      m := FindMatch(content, lastIndex);
    }
    if lastIndex < |content| {
      parts := parts + [Plain(content[lastIndex..])];
    }
    if |parts| == 0 {
      parts := [Plain(content)];
    }
  }

  /** `getReadStatusSymbol`: two check marks once read, one before. */
  function ReadStatusSymbol(isRead: bool): (r: string)
    ensures |r| == (if isRead then 2 else 1)
    ensures forall k :: 0 <= k < |r| ==> r[k] == '\U{2713}'
  {
    if isRead then "\U{2713}\U{2713}" else "\U{2713}"
  }
}
