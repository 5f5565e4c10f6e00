/** The link gate and the video-identifier extractor of the bot's URL handler.

    The dispatcher hands a message to the URL handler only when its lowercased
    text contains "youtube.com" or "youtu.be"; the handler then looks for the
    leftmost place where `v=` or `/` is followed by eleven characters from
    [A-Za-z0-9_-], exactly as an unanchored `re.search` of
    `(?:v=|\/)([a-zA-Z0-9_-]{11})` does.
 */
module YoutubeLink {

  datatype Option<T> = None | Some(value: T)

  // ---------------------------------------------------------------------------
  // The domain gate
  // ---------------------------------------------------------------------------

  /** Lowercasing of one character. Only ASCII letters are mapped: no other
      character lowercases to a letter of the two domain names, so the gate's
      answer is the same as with full Unicode lowercasing. */
  function LowerChar(c: char): char
  {
    if 'A' <= c <= 'Z' then (c as int + 32) as char else c
  }

  function Lower(s: string): string
  {
    seq(|s|, i requires 0 <= i < |s| => LowerChar(s[i]))
  }

  predicate OccursAt(hay: string, needle: string, i: int)
  {
    0 <= i <= |hay| - |needle| && hay[i..i + |needle|] == needle
  }

  /** Python's `needle in hay` for strings. */
  predicate Contains(hay: string, needle: string)
  {
    exists i | 0 <= i <= |hay| - |needle| :: OccursAt(hay, needle, i)
  }


  /** `needle` (lowercase) occurs at position `i` of `text` when case is ignored. */
  predicate OccursIgnoringCaseAt(text: string, i: int, needle: string)
  {
    0 <= i <= |text| - |needle| &&
    forall k :: 0 <= k < |needle| ==> LowerChar(text[i + k]) == needle[k]
  }

  /** A domain name written in any mix of upper and lower case. */
  predicate DomainAt(text: string, i: int)
  {
    OccursIgnoringCaseAt(text, i, "youtube.com") || OccursIgnoringCaseAt(text, i, "youtu.be")
  }

  lemma ContainsLowerIffIgnoringCase(text: string, needle: string)
    ensures Contains(Lower(text), needle) <==> exists i :: OccursIgnoringCaseAt(text, i, needle)
  {
    var low := Lower(text);
    if Contains(low, needle) {
      var i: int :| OccursAt(low, needle, i);
      assert OccursAt(low, needle, i);
      assert 0 <= i <= |low| - |needle|;
      assert |low| == |text| && low[i..i + |needle|] == needle;
      forall k | 0 <= k < |needle|
        ensures LowerChar(text[i + k]) == needle[k]
      {
        assert low[i..i + |needle|][k] == low[i + k];
      }
      assert OccursIgnoringCaseAt(text, i, needle);
    }
    if exists i :: OccursIgnoringCaseAt(text, i, needle) {
      var i :| OccursIgnoringCaseAt(text, i, needle);
      assert low[i..i + |needle|] == needle;
      assert OccursAt(low, needle, i);
    }
  }

  lemma LoweredDomainIffIgnoringCase(text: string)
    ensures Contains(Lower(text), "youtube.com") || Contains(Lower(text), "youtu.be")
        <==> exists i :: DomainAt(text, i)
  {
    ContainsLowerIffIgnoringCase(text, "youtube.com");
    ContainsLowerIffIgnoringCase(text, "youtu.be");
    if exists i :: OccursIgnoringCaseAt(text, i, "youtube.com") {
      var i :| OccursIgnoringCaseAt(text, i, "youtube.com");
      assert DomainAt(text, i);
    }
    if exists i :: OccursIgnoringCaseAt(text, i, "youtu.be") {
      var i :| OccursIgnoringCaseAt(text, i, "youtu.be");
      assert DomainAt(text, i);
    }
  }

  /** The dispatcher's filter for the URL handler. It accepts a message
      exactly when one of the two domain names occurs in it, in any letter
      case. */
  function SelectsUrlHandler(text: string): (r: bool)
    ensures r <==> exists i :: DomainAt(text, i)
  {
    LoweredDomainIffIgnoringCase(text);
    Contains(Lower(text), "youtube.com") || Contains(Lower(text), "youtu.be")
  }

  /** Lowercasing the message first never changes the gate's answer. */
  lemma GateIgnoresCase(text: string)
    ensures SelectsUrlHandler(Lower(text)) == SelectsUrlHandler(text)
  {
    assert Lower(Lower(text)) == Lower(text);
  }

  // ---------------------------------------------------------------------------
  // The identifier extractor
  // ---------------------------------------------------------------------------

  const IdLength: nat := 11

  /** The character class `[a-zA-Z0-9_-]`. */
  predicate IsIdChar(c: char)
  {
    'a' <= c <= 'z' || 'A' <= c <= 'Z' || '0' <= c <= '9' || c == '_' || c == '-'
  }

  predicate IsId(s: string)
  {
    |s| == IdLength && forall i :: 0 <= i < |s| ==> IsIdChar(s[i])
  }

  /** A successful `re.search`: `start` is `match.start()` (where the `v=` or
      `/` begins) and `id` is `match.group(1)`. */
  datatype Match = Match(start: nat, id: string)

  /** The alternative `v=` followed by an identifier matches at `p`. */
  predicate QueryMatchAt(s: string, p: nat)
  {
    p + 2 + IdLength <= |s| && s[p] == 'v' && s[p + 1] == '=' && IsId(s[p + 2..p + 2 + IdLength])
  }

  /** The alternative `/` followed by an identifier matches at `p`. */
  predicate PathMatchAt(s: string, p: nat)
  {
    p + 1 + IdLength <= |s| && s[p] == '/' && IsId(s[p + 1..p + 1 + IdLength])
  }

  /** The pattern tried at one start position. The two alternatives begin with
      different characters, so at most one of them can match there. */
  function MatchAt(s: string, p: nat): (r: Option<Match>)
    ensures r.Some? ==> r.value.start == p && IsId(r.value.id)
    ensures r.Some? <==> QueryMatchAt(s, p) || PathMatchAt(s, p)
  {
    if QueryMatchAt(s, p) then Some(Match(p, s[p + 2..p + 2 + IdLength]))
    else if PathMatchAt(s, p) then Some(Match(p, s[p + 1..p + 1 + IdLength]))
    else None
  }

  /** The matched identifier stands right after `v=` or `/` in the text. */
  predicate PrecededByMarker(s: string, m: Match)
  {
    (m.start + 2 + |m.id| <= |s| && s[m.start..m.start + 2] == "v=" &&
     s[m.start + 2..m.start + 2 + |m.id|] == m.id) ||
    (m.start + 1 + |m.id| <= |s| && s[m.start] == '/' &&
     s[m.start + 1..m.start + 1 + |m.id|] == m.id)
  }

  predicate NoMatchBefore(s: string, p: nat)
  {
    forall q: nat :: q < p ==> MatchAt(s, q).None?
  }

  /** `m` is what an unanchored leftmost search reports. */
  predicate IsLeftmost(s: string, m: Match)
  {
    MatchAt(s, m.start) == Some(m) && NoMatchBefore(s, m.start)
  }

  /** `re.search` tried from position `p` on: the first position at or after
      `p` where the pattern matches, or nothing when there is none. */
  function SearchFrom(s: string, p: nat): (r: Option<Match>)
    ensures r.Some? ==>
      p <= r.value.start && MatchAt(s, r.value.start) == r &&
      forall q: nat :: p <= q < r.value.start ==> MatchAt(s, q).None?
    ensures r.None? ==> forall q: nat :: p <= q ==> MatchAt(s, q).None?
    decreases |s| + 1 - p
  {
    if p > |s| then None
    else if MatchAt(s, p).Some? then MatchAt(s, p)
    else SearchFrom(s, p + 1)
  }

  /** `re.search`: it reports the leftmost match, and reports nothing only
      when the pattern matches nowhere. */
  function Search(s: string): (r: Option<Match>)
    ensures r.Some? ==> IsLeftmost(s, r.value)
    ensures r.None? <==> forall q: nat :: MatchAt(s, q).None?
  {
    SearchFrom(s, 0)
  }

  /** Conversely, a leftmost match is exactly what the search reports. */
  lemma LeftmostIsSearch(s: string, m: Match)
    requires IsLeftmost(s, m)
    ensures Search(s) == Some(m)
  {
  }

  /** What the handler can rely on when the search succeeds: an eleven
      character identifier from the allowed class, standing right after `v=`
      or `/`, with no match anywhere earlier in the text. */
  lemma ExtractedIdShape(s: string)
    ensures Search(s).Some? ==>
      var m := Search(s).value;
      IsId(m.id) && PrecededByMarker(s, m) && NoMatchBefore(s, m.start)
  {
    if Search(s).Some? {
      var m := Search(s).value;
      if QueryMatchAt(s, m.start) {
        assert s[m.start..m.start + 2] == [s[m.start], s[m.start + 1]];
      }
    }
  }

  /** An identifier after `/` or `v=` is the one extracted when nothing
      earlier in the text matches. */
  lemma FirstCandidateIsExtracted(pre: string, marker: string, id: string, post: string)
    requires marker == "/" || marker == "v="
    requires IsId(id)
    requires NoMatchBefore(pre + marker + id + post, |pre|)
    ensures Search(pre + marker + id + post) == Some(Match(|pre|, id))
  {
    var s := pre + marker + id + post;
    var p := |pre|;
    if marker == "/" {
      assert s[p] == '/';
      assert s[p + 1..p + 1 + IdLength] == id;
      assert !QueryMatchAt(s, p);
    } else {
      assert s[p] == 'v' && s[p + 1] == '=';
      assert s[p + 2..p + 2 + IdLength] == id;
    }
    LeftmostIsSearch(s, Match(p, id));
  }

  /** No match starts at a slash when one of the eleven characters after it
      lies outside the identifier class. */
  lemma NoMatchAtBrokenSlash(s: string, q: nat, j: nat)
    requires q < j <= q + IdLength && j < |s|
    requires s[q] == '/' && !IsIdChar(s[j])
    ensures MatchAt(s, q).None?
  {
  }

  const ShortLink: string := "https://youtu.be" + "/" + "dQw4w9WgXcQ"

  /** A short link: the identifier after the last slash is extracted. */
  lemma ShortLinkId()
    ensures Search(ShortLink) == Some(Match(16, "dQw4w9WgXcQ"))
  {
    var pre, id := "https://youtu.be", "dQw4w9WgXcQ";
    var s := ShortLink;
    assert s == pre + "/" + id + "";
    forall q: nat | q < |pre|
      ensures MatchAt(s, q).None?
    {
      assert s[q] == pre[q];
      if q == 6 {
        NoMatchAtBrokenSlash(s, q, 7);
      } else if q == 7 {
        NoMatchAtBrokenSlash(s, q, 13);
      } else if q < 6 {
        assert pre[q] in pre[..6];
      } else {
        assert pre[q] in pre[8..];
      }
    }
    FirstCandidateIsExtracted(pre, "/", id, "");
  }

  /** The short link passes the domain gate. */
  lemma ShortLinkPassesGate()
    ensures SelectsUrlHandler(ShortLink)
  {
    var low := Lower(ShortLink);
    assert low[8..16] == "youtu.be";
    assert OccursAt(low, "youtu.be", 8);
  }

  /** Nothing in the scheme and host part of a watch link can start a match,
      whatever follows it. */
  lemma NoMatchInHost(rest: string)
    ensures NoMatchBefore("https://www.youtube.com" + rest, 23)
  {
    var pre := "https://www.youtube.com";
    var s := pre + rest;
    forall q: nat | q < |pre|
      ensures MatchAt(s, q).None?
    {
      assert s[q] == pre[q];
      if q == 6 {
        NoMatchAtBrokenSlash(s, q, 7);
      } else if q == 7 {
        NoMatchAtBrokenSlash(s, q, 11);
      } else if q < 6 {
        assert pre[q] in pre[..6];
      } else {
        assert pre[q] in pre[8..];
      }
    }
  }

  const AttributionLink: string :=
    "https://www.youtube.com" + "/" + "attribution" + "_link?u=/watch?v=dQw4w9WgXcQ"

  /** The search is not anchored to the `v=` parameter: an eleven-letter path
      segment earlier in a watch link wins, here the word "attribution". */
  lemma AttributionLinkId()
    ensures Search(AttributionLink) == Some(Match(23, "attribution"))
  {
    var pre, id, post := "https://www.youtube.com", "attribution", "_link?u=/watch?v=dQw4w9WgXcQ";
    NoMatchInHost("/" + id + post);
    assert pre + ("/" + id + post) == pre + "/" + id + post;
    FirstCandidateIsExtracted(pre, "/", id, post);
  }

  /** The scan the regular-expression engine performs: try each start position
      in turn and stop at the first one where the pattern matches. */
  method FindVideoId(url: string) returns (m: Option<Match>)
    ensures m == Search(url)
  {
    var p: nat := 0;
    while p <= |url|
      invariant p <= |url| + 1
      invariant SearchFrom(url, p) == Search(url)
      decreases |url| + 1 - p
    {
      var here := MatchAt(url, p);
      if here.Some? {
        return here;
      }
      p := p + 1;
    }
    return None;
  }
}
