/** The favicon line filter of the standalone-page builder: the page is cut
    into lines at '\n', every line that links a PNG icon or an Apple touch
    icon is dropped, and the remaining lines are joined again with '\n'.

    The pattern the source compiles is, in Python's `re` syntax,
        \s*<link\s+rel="(?:icon"\s+type="image/png|apple-touch-icon)
    searched anywhere in a line, ignoring case. It is written out here by
    hand: `IsOtherFavicon` below is that search. */
module Favicons {
  import opened Text

  // ---------------------------------------------------------------------
  // The pattern
  // ---------------------------------------------------------------------

  /** `\s` on a `str` pattern: the characters for which `str.isspace()` holds. */
  predicate IsSpace(c: char) {
    ('\t' <= c <= '\r') || ('\U{1C}' <= c <= '\U{1F}') || c == ' ' ||
    c == '\U{85}' || c == '\U{A0}' || c == '\U{1680}' ||
    ('\U{2000}' <= c <= '\U{200A}') || c == '\U{2028}' || c == '\U{2029}' ||
    c == '\U{202F}' || c == '\U{205F}' || c == '\U{3000}'
  }

  /** Whether text character `c` matches pattern character `p` (written in
      lower case) under `re.IGNORECASE`: `p` itself, its ASCII capital, and
      the characters Unicode folds onto `i`, `s` and `k`. */
  predicate MatchesIgnoringCase(c: char, p: char) {
    c == p ||
    ('a' <= p <= 'z' && c as int == p as int - 32) ||
    (p == 'i' && (c == '\U{130}' || c == '\U{131}')) ||
    (p == 's' && c == '\U{17F}') ||
    (p == 'k' && c == '\U{212A}')
  }

  /** `s` begins with a text that pattern literal `p` matches ignoring case. */
  predicate StartsWithIgnoringCase(s: string, p: string) {
    p == [] || (s != [] && MatchesIgnoringCase(s[0], p[0]) && StartsWithIgnoringCase(s[1..], p[1..]))
  }

  /** Length of the run of whitespace that `s` starts with: the part a
      greedy `\s+` or `\s*` consumes. */
  function LeadingSpaces(s: string): (n: nat)
    ensures n <= |s|
    ensures forall k :: 0 <= k < n ==> IsSpace(s[k])
    ensures n < |s| ==> !IsSpace(s[n])
  {
    if s != [] && IsSpace(s[0]) then 1 + LeadingSpaces(s[1..]) else 0
  }

  /** The pattern, without its leading `\s*`, matches at the start of `s`:
      `<link`, then `\s+rel="` and one of the two kinds. Each `\s+` here is
      followed by a letter, so it takes the whole whitespace run and the
      match needs no backtracking. */
  predicate MatchesHere(s: string) {
    |s| >= 5 && StartsWithIgnoringCase(s, "<link") && RelAfterSpaces(s[5..])
  }

  /** `\s+rel="` followed by one of the two kinds. */
  predicate RelAfterSpaces(s: string) {
    var n := LeadingSpaces(s);
    n >= 1 && |s[n..]| >= 5 && StartsWithIgnoringCase(s[n..], "rel=\"") && OtherKind(s[n + 5..])
  }

  /** `icon"\s+type="image/png` or `apple-touch-icon`. */
  predicate OtherKind(s: string) {
    StartsWithIgnoringCase(s, "apple-touch-icon") ||
    (|s| >= 5 && StartsWithIgnoringCase(s, "icon\"") && PngTypeAfterSpaces(s[5..]))
  }

  /** `\s+type="image/png`. */
  predicate PngTypeAfterSpaces(s: string) {
    var n := LeadingSpaces(s);
    n >= 1 && StartsWithIgnoringCase(s[n..], "type=\"image/png")
  }

  /** `pattern.search(line)` for a pattern whose form anchored at the
      start of a string is `here`: a match at the first position or further on. */
  predicate Search(line: string, here: string -> bool) {
    here(line) || (line != [] && Search(line[1..], here))
  }

  /** The search succeeds exactly when the anchored pattern matches at some position. */
  lemma {:induction false} SearchAt(line: string, here: string -> bool)
    ensures Search(line, here) <==> exists i :: 0 <= i <= |line| && here(line[i..])
    decreases |line|
  {
    assert line[0..] == line;
    if line != [] {
      var tail := line[1..];
      SearchAt(tail, here);
      if Search(line, here) && !here(line) {
        assert Search(tail, here);
        var i :| 0 <= i <= |tail| && here(tail[i..]);
        assert tail[i..] == line[i + 1..];
        assert 0 <= i + 1 <= |line| && here(line[i + 1..]);
      }
      if exists i :: 0 <= i <= |line| && here(line[i..]) {
        var i :| 0 <= i <= |line| && here(line[i..]);
        if i > 0 {
          assert tail[i - 1..] == line[i..];
          assert 0 <= i - 1 <= |tail| && here(tail[i - 1..]);
          assert Search(tail, here);
        }
      }
    }
  }

  /** The search for the favicon pattern. The leading `\s*` may match
      nothing, so a match anywhere in the line is a match of the rest of the
      pattern at some position. */
  predicate IsOtherFavicon(line: string) {
    Search(line, MatchesHere)
  }

  /** A pattern literal matches its own text. */
  lemma {:induction false} StartsWithItself(p: string, rest: string)
    ensures StartsWithIgnoringCase(p + rest, p)
  {
    if p != [] {
      assert (p + rest)[0] == p[0];
      assert (p + rest)[1..] == p[1..] + rest;
      StartsWithItself(p[1..], rest);
    }
  }

  /** A whitespace run followed by a non-space is consumed whole. */
  lemma {:induction false} LeadingSpacesOf(ws: string, rest: string)
    requires forall k :: 0 <= k < |ws| ==> IsSpace(ws[k])
    requires rest != [] && !IsSpace(rest[0])
    ensures LeadingSpaces(ws + rest) == |ws|
  {
    if ws != [] {
      assert (ws + rest)[0] == ws[0];
      assert (ws + rest)[1..] == ws[1..] + rest;
      LeadingSpacesOf(ws[1..], rest);
    } else {
      assert ws + rest == rest;
    }
  }

  /** Whatever precedes an anchored match, the search finds it. */
  lemma FoundAfter(prefix: string, s: string)
    requires MatchesHere(s)
    ensures IsOtherFavicon(prefix + s)
  {
    assert (prefix + s)[|prefix|..] == s;
    SearchAt(prefix + s, MatchesHere);
  }

  /** `\s+` followed by a text the next part of the pattern matches. */
  lemma SpacesThen(ws: string, rest: string)
    requires |ws| >= 1 && forall k :: 0 <= k < |ws| ==> IsSpace(ws[k])
    requires rest != [] && !IsSpace(rest[0])
    ensures LeadingSpaces(ws + rest) == |ws| && (ws + rest)[|ws|..] == rest
  {
    LeadingSpacesOf(ws, rest);
  }

  lemma PngTypeAfter(ws: string, rest: string)
    requires |ws| >= 1 && forall k :: 0 <= k < |ws| ==> IsSpace(ws[k])
    ensures PngTypeAfterSpaces(ws + ("type=\"image/png" + rest))
  {
    StartsWithItself("type=\"image/png", rest);
    SpacesThen(ws, "type=\"image/png" + rest);
  }

  lemma IconKind(rest: string)
    requires PngTypeAfterSpaces(rest)
    ensures OtherKind("icon\"" + rest)
  {
    StartsWithItself("icon\"", rest);
    assert ("icon\"" + rest)[5..] == rest;
  }

  lemma AppleKind(rest: string)
    ensures OtherKind("apple-touch-icon" + rest)
  {
    StartsWithItself("apple-touch-icon", rest);
  }

  lemma RelAfter(ws: string, kind: string)
    requires |ws| >= 1 && forall k :: 0 <= k < |ws| ==> IsSpace(ws[k])
    requires OtherKind(kind)
    ensures RelAfterSpaces(ws + ("rel=\"" + kind))
  {
    var rel := "rel=\"" + kind;
    StartsWithItself("rel=\"", kind);
    SpacesThen(ws, rel);
    assert (ws + rel)[|ws|..] == rel;
    assert (ws + rel)[|ws| + 5..] == kind;
  }

  lemma LinkAt(indent: string, rest: string)
    requires RelAfterSpaces(rest)
    ensures IsOtherFavicon(indent + ("<link" + rest))
  {
    StartsWithItself("<link", rest);
    assert ("<link" + rest)[5..] == rest;
    FoundAfter(indent, "<link" + rest);
  }

  /** Every line linking a PNG icon, with any indentation, any whitespace
      runs between the attributes and anything after the type, is dropped. */
  lemma PngIconLinkIsDropped(indent: string, ws1: string, ws2: string, rest: string)
    requires |ws1| >= 1 && forall k :: 0 <= k < |ws1| ==> IsSpace(ws1[k])
    requires |ws2| >= 1 && forall k :: 0 <= k < |ws2| ==> IsSpace(ws2[k])
    ensures IsOtherFavicon(indent + ("<link" + (ws1 + ("rel=\"" + ("icon\"" + (ws2 + ("type=\"image/png" + rest)))))))
  {
    var typ := ws2 + ("type=\"image/png" + rest);
    PngTypeAfter(ws2, rest);
    var kind := "icon\"" + typ;
    IconKind(typ);
    var rel := ws1 + ("rel=\"" + kind);
    RelAfter(ws1, kind);
    LinkAt(indent, rel);
  }

  /** Every line linking an Apple touch icon is dropped. */
  lemma AppleTouchIconLinkIsDropped(indent: string, ws: string, rest: string)
    requires |ws| >= 1 && forall k :: 0 <= k < |ws| ==> IsSpace(ws[k])
    ensures IsOtherFavicon(indent + ("<link" + (ws + ("rel=\"" + ("apple-touch-icon" + rest)))))
  {
    var kind := "apple-touch-icon" + rest;
    AppleKind(rest);
    var rel := ws + ("rel=\"" + kind);
    RelAfter(ws, kind);
    LinkAt(indent, rel);
  }

  /** An attribute other than the PNG type after `\s+` fails `\s+type="image/png`. */
  lemma NotPngType(ws: string, attr: string)
    requires |ws| >= 1 && forall k :: 0 <= k < |ws| ==> IsSpace(ws[k])
    requires attr != [] && !IsSpace(attr[0]) && !StartsWithIgnoringCase(attr, "type=\"image/png")
    ensures !PngTypeAfterSpaces(ws + attr)
  {
    SpacesThen(ws, attr);
  }

  lemma NotOtherKind(after: string)
    requires !PngTypeAfterSpaces(after)
    ensures !OtherKind("icon\"" + after)
  {
    assert ("icon\"" + after)[5..] == after;
    assert ("icon\"" + after)[0] == 'i';
  }

  lemma NotRelAfter(ws: string, kind: string)
    requires |ws| >= 1 && forall k :: 0 <= k < |ws| ==> IsSpace(ws[k])
    requires !OtherKind(kind)
    ensures !RelAfterSpaces(ws + ("rel=\"" + kind))
  {
    var rel := "rel=\"" + kind;
    SpacesThen(ws, rel);
    assert (ws + rel)[|ws|..] == rel;
    assert (ws + rel)[|ws| + 5..] == kind;
  }

  lemma NotLinkAt(rel: string)
    requires !RelAfterSpaces(rel)
    requires '<' !in rel
    ensures !IsOtherFavicon("<link" + rel)
  {
    var line := "<link" + rel;
    assert line[5..] == rel;
    assert line[1..] == "link" + rel;
    LineWithoutTagIsKept(line[1..]);
  }

  lemma NoSpaceIsTag(ws: string)
    requires forall k :: 0 <= k < |ws| ==> IsSpace(ws[k])
    ensures '<' !in ws
  {
    assert forall k :: 0 <= k < |ws| ==> ws[k] != '<';
  }

  /** Text without `<` in front of a line that is kept does not make it dropped:
      the pattern starts with `<`, so no match can begin in that text. */
  lemma {:induction false} NoTagPrefix(prefix: string, s: string)
    requires '<' !in prefix
    requires !IsOtherFavicon(s)
    ensures !IsOtherFavicon(prefix + s)
  {
    if prefix == [] {
      assert prefix + s == s;
    } else {
      var line := prefix + s;
      assert line[0] == prefix[0];
      assert !MatchesHere(line);
      assert line[1..] == prefix[1..] + s;
      assert '<' !in prefix[1..];
      NoTagPrefix(prefix[1..], s);
    }
  }

  lemma NoTagInLink(ws1: string, ws2: string, attr: string)
    requires '<' !in attr
    requires forall k :: 0 <= k < |ws1| ==> IsSpace(ws1[k])
    requires forall k :: 0 <= k < |ws2| ==> IsSpace(ws2[k])
    ensures '<' !in ws1 + ("rel=\"" + ("icon\"" + (ws2 + attr)))
  {
    NoSpaceIsTag(ws1);
    NoSpaceIsTag(ws2);
    var kind := "icon\"" + (ws2 + attr);
    assert '<' !in ws2 + attr;
    assert '<' !in kind;
    assert '<' !in "rel=\"" + kind;
  }

  /** The icon link the page keeps, whose attribute after `rel="icon"` is
      not the PNG type (the `.ico` link, say), is not dropped, whatever its
      indentation. */
  lemma IcoIconLinkIsKept(indent: string, ws1: string, ws2: string, attr: string)
    requires '<' !in indent && '<' !in attr
    requires |ws1| >= 1 && forall k :: 0 <= k < |ws1| ==> IsSpace(ws1[k])
    requires |ws2| >= 1 && forall k :: 0 <= k < |ws2| ==> IsSpace(ws2[k])
    requires attr != [] && !IsSpace(attr[0]) && !StartsWithIgnoringCase(attr, "type=\"image/png")
    ensures !IsOtherFavicon(indent + ("<link" + (ws1 + ("rel=\"" + ("icon\"" + (ws2 + attr))))))
  {
    var after := ws2 + attr;
    NotPngType(ws2, attr);
    var kind := "icon\"" + after;
    NotOtherKind(after);
    var rel := ws1 + ("rel=\"" + kind);
    NotRelAfter(ws1, kind);
    NoTagInLink(ws1, ws2, attr);
    NotLinkAt(rel);
    NoTagPrefix(indent, "<link" + rel);
  }

  /** A line without a `<` is never dropped. */
  lemma {:induction false} LineWithoutTagIsKept(line: string)
    requires '<' !in line
    ensures !IsOtherFavicon(line)
  {
    if line != [] {
      assert line[0] != '<';
      assert '<' !in line[1..];
      LineWithoutTagIsKept(line[1..]);
    }
  }

  // ---------------------------------------------------------------------
  // The filter
  // ---------------------------------------------------------------------

  /** Python's `[ln for ln in lines if not pattern.search(ln)]`, for any
      predicate `dropped` in the place of the pattern search. */
  function KeptLines(lines: seq<string>, dropped: string -> bool): (kept: seq<string>)
    ensures |kept| <= |lines|
    ensures forall l :: l in kept <==> l in lines && !dropped(l)
  {
    if lines == [] then []
    else (if dropped(lines[0]) then [] else [lines[0]]) + KeptLines(lines[1..], dropped)
  }

  /** `b` keeps some of the elements of `a`, in their order in `a`. */
  predicate IsSubsequence(b: seq<string>, a: seq<string>)
    decreases |a|
  {
    if b == [] then true
    else if a == [] then false
    else (b[0] == a[0] && IsSubsequence(b[1..], a[1..])) || IsSubsequence(b, a[1..])
  }

  /** The kept lines are some of the input's lines in their original order. */
  lemma {:induction false} KeptLinesInOrder(lines: seq<string>, dropped: string -> bool)
    ensures IsSubsequence(KeptLines(lines, dropped), lines)
  {
    if lines != [] {
      var kept, rest := KeptLines(lines, dropped), KeptLines(lines[1..], dropped);
      KeptLinesInOrder(lines[1..], dropped);
      if !dropped(lines[0]) {
        assert kept == [lines[0]] + rest;
        assert kept[0] == lines[0] && kept[1..] == rest;
      } else {
        assert kept == rest;
      }
    }
  }

  /** Filtering works line by line: it distributes over concatenation, so
      every line is kept or dropped on its own, in place. */
  lemma {:induction false} KeptLinesAppend(a: seq<string>, b: seq<string>, dropped: string -> bool)
    ensures KeptLines(a + b, dropped) == KeptLines(a, dropped) + KeptLines(b, dropped)
  {
    if a != [] {
      assert (a + b)[0] == a[0];
      assert (a + b)[1..] == a[1..] + b;
      KeptLinesAppend(a[1..], b, dropped);
    } else {
      assert a + b == b;
    }
  }

  lemma CountCons(x: string, xs: seq<string>, l: string)
    ensures multiset([x] + xs)[l] == (if x == l then 1 else 0) + multiset(xs)[l]
  {
    assert multiset([x] + xs) == multiset([x]) + multiset(xs);
  }

  /** Each line that does not match is kept as often as it occurs, and
      each line that matches is gone. */
  lemma {:induction false} KeptLinesOccurrences(lines: seq<string>, dropped: string -> bool, l: string)
    ensures multiset(KeptLines(lines, dropped))[l] == if dropped(l) then 0 else multiset(lines)[l]
  {
    if lines != [] {
      var rest := KeptLines(lines[1..], dropped);
      KeptLinesOccurrences(lines[1..], dropped, l);
      assert lines == [lines[0]] + lines[1..];
      CountCons(lines[0], lines[1..], l);
      if dropped(lines[0]) {
        assert KeptLines(lines, dropped) == rest;
      } else {
        assert KeptLines(lines, dropped) == [lines[0]] + rest;
        CountCons(lines[0], rest, l);
      }
    }
  }

  /** When no line matches, nothing is dropped. */
  lemma {:induction false} KeptLinesNoMatch(lines: seq<string>, dropped: string -> bool)
    requires forall k :: 0 <= k < |lines| ==> !dropped(lines[k])
    ensures KeptLines(lines, dropped) == lines
  {
    if lines != [] {
      KeptLinesNoMatch(lines[1..], dropped);
    }
  }

  lemma KeptLinesNoNewline(lines: seq<string>, dropped: string -> bool)
    requires forall k :: 0 <= k < |lines| ==> '\n' !in lines[k]
    ensures forall k :: 0 <= k < |KeptLines(lines, dropped)| ==> '\n' !in KeptLines(lines, dropped)[k]
  {
    var kept := KeptLines(lines, dropped);
    forall k | 0 <= k < |kept| ensures '\n' !in kept[k] {
      assert kept[k] in kept;
      var j :| 0 <= j < |lines| && lines[j] == kept[k];
    }
  }

  /** `remove_other_favicons`. */
  function RemoveOtherFavicons(html: string): string {
    Join(KeptLines(Split(html, '\n'), IsOtherFavicon), '\n')
  }

  /** The lines of the result are the kept lines of the input; when every
      line was dropped the result is the empty page. */
  lemma ResultLines(html: string)
    ensures var kept := KeptLines(Split(html, '\n'), IsOtherFavicon);
      if kept == [] then RemoveOtherFavicons(html) == ""
      else Split(RemoveOtherFavicons(html), '\n') == kept
  {
    var kept := KeptLines(Split(html, '\n'), IsOtherFavicon);
    if kept != [] {
      KeptLinesNoNewline(Split(html, '\n'), IsOtherFavicon);
      SplitJoin(kept, '\n');
    }
  }

  /** No line of the result is a favicon line the filter removes. */
  lemma NoOtherFaviconRemains(html: string)
    ensures forall l | l in Split(RemoveOtherFavicons(html), '\n') :: !IsOtherFavicon(l)
  {
    ResultLines(html);
    assert !IsOtherFavicon("");
  }

  /** A page without such favicon lines passes through unchanged. */
  lemma RemoveWithoutMatchesIsIdentity(html: string)
    requires forall l | l in Split(html, '\n') :: !IsOtherFavicon(l)
    ensures RemoveOtherFavicons(html) == html
  {
    var lines := Split(html, '\n');
    assert forall k :: 0 <= k < |lines| ==> lines[k] in lines;
    KeptLinesNoMatch(lines, IsOtherFavicon);
    JoinSplit(html, '\n');
  }

  /** Applying the filter twice gives the same page as applying it once. */
  lemma RemoveIsIdempotent(html: string)
    ensures RemoveOtherFavicons(RemoveOtherFavicons(html)) == RemoveOtherFavicons(html)
  {
    NoOtherFaviconRemains(html);
    RemoveWithoutMatchesIsIdentity(RemoveOtherFavicons(html));
  }
}
