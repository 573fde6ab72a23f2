/** Normalisation of an incoming overlay request (overlays/script.js):
    event routing (483-487), the permissive mute flag (535-539), source
    rewriting (555-561), media-kind classification by file suffix (567-569)
    and the element chosen for each kind (198-218).

    The source's regular expressions carry the `i` flag but not `u`; under
    such a match no non-ASCII character folds to an ASCII one, and every
    pattern here is ASCII, so folding only ASCII letters is exact. */
module Ingress {
  import opened Wrappers

  // ---------------------------------------------------------------------
  // Case folding and affixes

  function LowerChar(c: char): char {
    if 'A' <= c <= 'Z' then (c as int + 32) as char else c
  }

  function Lower(s: string): (r: string) {
    seq(|s|, k requires 0 <= k < |s| => LowerChar(s[k]))
  }

  /** `/^p/i` for a lower-case literal `p`. */
  predicate StartsWithCI(s: string, p: string) {
    |p| <= |s| && Lower(s[..|p|]) == p
  }

  /** `/p$/i` for a lower-case literal `p`. */
  predicate EndsWithCI(s: string, p: string) {
    |p| <= |s| && Lower(s[|s| - |p|..]) == p
  }

  // ---------------------------------------------------------------------
  // Source rewriting (555-561)

  /** `/^(https?|ftp|file|data|blob):/i`. */
  predicate IsUrl(s: string) {
    || StartsWithCI(s, "http:") || StartsWithCI(s, "https:") || StartsWithCI(s, "ftp:")
    || StartsWithCI(s, "file:") || StartsWithCI(s, "data:") || StartsWithCI(s, "blob:")
  }

  /** The fixed virtual origin relative paths are put under. */
  const VirtualOrigin: string := "http://absolute/"

  /** A source with a recognised scheme is kept; anything else is put under the virtual origin. */
  function RewriteSource(s: string): (r: string)
    ensures IsUrl(s) ==> r == s
    ensures !IsUrl(s) ==> r == VirtualOrigin + s
    ensures IsUrl(r)
  {
    assert StartsWithCI(VirtualOrigin + s, "http:") by {
      assert (VirtualOrigin + s)[..5] == "http:";
    }
    if IsUrl(s) then s else VirtualOrigin + s
  }

  /** Rewriting an already rewritten source changes nothing. */
  lemma RewriteIdempotent(s: string)
    ensures RewriteSource(RewriteSource(s)) == RewriteSource(s)
  {
  }

  // ---------------------------------------------------------------------
  // Classification (567-569)

  predicate IsVideo(s: string) {
    || EndsWithCI(s, ".mp4") || EndsWithCI(s, ".webm") || EndsWithCI(s, ".ogg")
    || EndsWithCI(s, ".avi") || EndsWithCI(s, ".mov")
  }

  predicate IsGif(s: string) { EndsWithCI(s, ".gif") }

  predicate IsHtml(s: string) { EndsWithCI(s, ".html") || EndsWithCI(s, ".htm") }

  /** The closed set of media kinds. */
  datatype MediaKind = Video | AnimatedGif | Html | StaticImage

  function Classify(s: string): MediaKind {
    if IsVideo(s) then Video
    else if IsGif(s) then AnimatedGif
    else if IsHtml(s) then Html
    else StaticImage
  }

  /** Reading character `k` from the end of a case-insensitive suffix match. */
  lemma EndsWithAt(s: string, p: string, k: nat)
    requires EndsWithCI(s, p) && k < |p|
    ensures LowerChar(s[|s| - 1 - k]) == p[|p| - 1 - k]
  {
    assert Lower(s[|s| - |p|..])[|p| - 1 - k] == LowerChar(s[|s| - |p|..][|p| - 1 - k]);
  }

  /** The video, GIF and HTML tests are mutually exclusive. */
  lemma KindsExclusive(s: string)
    ensures !(IsVideo(s) && IsGif(s))
    ensures !(IsVideo(s) && IsHtml(s))
    ensures !(IsGif(s) && IsHtml(s))
  {
    var pats := [".mp4", ".webm", ".ogg", ".avi", ".mov", ".gif", ".html", ".htm"];
    forall i, j | 0 <= i < j < |pats| && EndsWithCI(s, pats[i]) && EndsWithCI(s, pats[j])
      ensures i == 6 && j == 7
    {
      EndsWithAt(s, pats[i], 0);
      EndsWithAt(s, pats[j], 0);
      EndsWithAt(s, pats[i], 1);
      EndsWithAt(s, pats[j], 1);
    }
    assert pats[0] == ".mp4" && pats[1] == ".webm" && pats[2] == ".ogg" && pats[3] == ".avi";
    assert pats[4] == ".mov" && pats[5] == ".gif" && pats[6] == ".html" && pats[7] == ".htm";
  }

  /** The classification is the unique kind whose test holds. */
  lemma ClassifyExact(s: string)
    ensures Classify(s) == Video <==> IsVideo(s)
    ensures Classify(s) == AnimatedGif <==> IsGif(s)
    ensures Classify(s) == Html <==> IsHtml(s)
    ensures Classify(s) == StaticImage <==> !IsVideo(s) && !IsGif(s) && !IsHtml(s)
  {
    KindsExclusive(s);
  }

  /** Prefixing the virtual origin does not change whether a suffix matches,
      as long as the suffix has no `/`. */
  lemma PrefixKeepsSuffix(s: string, p: string)
    requires forall k :: 0 <= k < |p| ==> p[k] != '/'
    ensures EndsWithCI(VirtualOrigin + s, p) <==> EndsWithCI(s, p)
  {
    var t := VirtualOrigin + s;
    if |p| <= |s| {
      assert t[|t| - |p|..] == s[|s| - |p|..];
    } else if EndsWithCI(t, p) {
      // the `/` that ends the origin falls inside the suffix
      EndsWithAt(t, p, |s|);
      assert false;
    }
  }

  /** Rewriting never changes the kind of a source. */
  lemma RewriteKeepsKind(s: string)
    ensures IsVideo(RewriteSource(s)) == IsVideo(s)
    ensures IsGif(RewriteSource(s)) == IsGif(s)
    ensures IsHtml(RewriteSource(s)) == IsHtml(s)
    ensures Classify(RewriteSource(s)) == Classify(s)
  {
    if !IsUrl(s) {
      var pats := [".mp4", ".webm", ".ogg", ".avi", ".mov", ".gif", ".html", ".htm"];
      forall i | 0 <= i < |pats|
        ensures EndsWithCI(VirtualOrigin + s, pats[i]) <==> EndsWithCI(s, pats[i])
      {
        PrefixKeepsSuffix(s, pats[i]);
      }
      assert pats[0] == ".mp4" && pats[1] == ".webm" && pats[2] == ".ogg" && pats[3] == ".avi";
      assert pats[4] == ".mov" && pats[5] == ".gif" && pats[6] == ".html" && pats[7] == ".htm";
    }
  }

  // ---------------------------------------------------------------------
  // Element choice (198-218)

  /** The element `createMediaElement` builds; `src` is the rewritten source. */
  datatype Element =
    | VideoElement(src: string, muted: bool)  // <video>, no controls, autoplay, no loop
    | Iframe(src: string)                     // <iframe>, borderless, transparent
    | Img(src: string)                        // <img>

  function CreateMediaElement(src: string, isVideo: bool, isHtml: bool, muted: bool): (e: Element)
    ensures e.src == src
    ensures e.VideoElement? <==> isVideo
    ensures e.Iframe? <==> !isVideo && isHtml
    ensures e.Img? <==> !isVideo && !isHtml
    ensures e.VideoElement? ==> e.muted == muted
  {
    if isVideo then VideoElement(src, muted)
    else if isHtml then Iframe(src)
    else Img(src)
  }

  /** With the flags of line 567-569, video gets a `<video>`, HTML an
      `<iframe>`, and both image kinds an `<img>`. */
  lemma ElementFollowsKind(src: string, muted: bool)
    ensures var e := CreateMediaElement(src, IsVideo(src), IsHtml(src), muted);
      && (e.VideoElement? <==> Classify(src) == Video)
      && (e.Iframe? <==> Classify(src) == Html)
      && (e.Img? <==> Classify(src) == AnimatedGif || Classify(src) == StaticImage)
  {
    ClassifyExact(src);
  }

  // ---------------------------------------------------------------------
  // The mute flag (535-539)

  /** The characters `String.prototype.trim` removes: white space and line terminators. */
  predicate IsJsSpace(c: char) {
    var n := c as int;
    || (0x09 <= n <= 0x0D) || n == 0x20 || n == 0xA0 || n == 0x1680
    || (0x2000 <= n <= 0x200A) || n == 0x2028 || n == 0x2029 || n == 0x202F
    || n == 0x205F || n == 0x3000 || n == 0xFEFF
  }

  predicate AllSpace(s: string) { forall k :: 0 <= k < |s| ==> IsJsSpace(s[k]) }

  /** Neither end of `s` is a space. */
  predicate Trimmed(s: string) { s == [] || (!IsJsSpace(s[0]) && !IsJsSpace(s[|s| - 1])) }

  /** Where the run of white space that starts at `k` ends. */
  function SpaceRunFrom(s: string, k: nat): (n: nat)
    requires k <= |s|
    ensures k <= n <= |s|
    ensures forall m :: k <= m < n ==> IsJsSpace(s[m])
    ensures n == |s| || !IsJsSpace(s[n])
    decreases |s| - k
  {
    if k < |s| && IsJsSpace(s[k]) then SpaceRunFrom(s, k + 1) else k
  }

  /** Where the run of white space that ends at `k` starts. */
  function SpaceRunUntil(s: string, k: nat): (n: nat)
    requires k <= |s|
    ensures n <= k
    ensures forall m :: n <= m < k ==> IsJsSpace(s[m])
    ensures n == 0 || !IsJsSpace(s[n - 1])
  {
    if k > 0 && IsJsSpace(s[k - 1]) then SpaceRunUntil(s, k - 1) else k
  }

  function TrimStart(s: string): (r: string)
    ensures |r| <= |s| && r == s[|s| - |r|..]
    ensures AllSpace(s[..|s| - |r|])
    ensures r == [] || !IsJsSpace(r[0])
  {
    s[SpaceRunFrom(s, 0)..]
  }

  function TrimEnd(s: string): (r: string)
    ensures |r| <= |s| && r == s[..|r|]
    ensures AllSpace(s[|r|..])
    ensures r == [] || !IsJsSpace(r[|r| - 1])
  {
    s[..SpaceRunUntil(s, |s|)]
  }

  /** `String.prototype.trim`: `s` with its leading and trailing spaces removed. */
  function Trim(s: string): (r: string)
    ensures Trimmed(r)
    ensures TrimStartIndex(s) + |r| <= |s|
    ensures r == s[TrimStartIndex(s)..TrimStartIndex(s) + |r|]
    ensures AllSpace(s[..TrimStartIndex(s)]) && AllSpace(s[TrimStartIndex(s) + |r|..])
  {
    TrimBothEnds(s);
    TrimEnd(TrimStart(s))
  }

  /** Trimming the end of the start-trimmed string takes a slice of `s`
      with only white space around it and none at its ends. */
  lemma TrimBothEnds(s: string)
    ensures var r := TrimEnd(TrimStart(s)); var i := |s| - |TrimStart(s)|;
      && Trimmed(r) && i + |r| <= |s| && r == s[i..i + |r|]
      && AllSpace(s[..i]) && AllSpace(s[i + |r|..])
  {
    var a := TrimStart(s);
    var r := TrimEnd(a);
    var i := |s| - |a|;
    assert Trimmed(r) by {
      if r != [] { assert r[0] == a[0]; }
    }
    assert r == s[i..i + |r|] by {
      assert a == s[i..] && r == a[..|r|];
    }
    assert AllSpace(s[i + |r|..]) by {
      assert AllSpace(a[|r|..]);
      assert a[|r|..] == s[i + |r|..];
    }
  }

  /** Leading spaces in front of a word that does not start with one are all removed. */
  lemma TrimStartPadded(a: string, t: string)
    requires AllSpace(a) && (t == [] || !IsJsSpace(t[0]))
    ensures TrimStart(a + t) == t
  {
    var s := a + t;
    forall m | 0 <= m < |a| ensures IsJsSpace(s[m]) {
      assert s[m] == a[m];
    }
    assert |a| == |s| || !IsJsSpace(s[|a|]) by {
      if |a| < |s| { assert s[|a|] == t[0]; }
    }
    assert SpaceRunFrom(s, 0) == |a|;
    assert s[|a|..] == t;
  }

  /** Trailing spaces behind a word that does not end with one are all removed. */
  lemma TrimEndPadded(t: string, b: string)
    requires AllSpace(b) && (t == [] || !IsJsSpace(t[|t| - 1]))
    ensures TrimEnd(t + b) == t
  {
    var s := t + b;
    forall m | |t| <= m < |s| ensures IsJsSpace(s[m]) {
      assert s[m] == b[m - |t|];
    }
    assert |t| == 0 || !IsJsSpace(s[|t| - 1]) by {
      if |t| > 0 { assert s[|t| - 1] == t[|t| - 1]; }
    }
    assert SpaceRunUntil(s, |s|) == |t|;
    assert s[..|t|] == t;
  }

  /** Trimming a word padded with spaces gives back the word. */
  lemma TrimPadded(a: string, w: string, b: string)
    requires AllSpace(a) && AllSpace(b) && Trimmed(w)
    ensures Trim(a + w + b) == w
  {
    assert a + w + b == a + (w + b);
    if w == [] {
      assert w + b == b;
      var r := TrimStart(a + b);
      assert AllSpace(a + b) by {
        forall k | 0 <= k < |a + b| ensures IsJsSpace((a + b)[k]) {
          if k < |a| { assert (a + b)[k] == a[k]; } else { assert (a + b)[k] == b[k - |a|]; }
        }
      }
      assert TrimEnd([]) == [];
    } else {
      assert (w + b)[0] == w[0];
      TrimStartPadded(a, w + b);
      TrimEndPadded(w, b);
    }
  }

  /** The spellings accepted as "muted" after lower-casing and trimming. */
  predicate IsMutedWord(w: string) { w == "true" || w == "yes" || w == "1" }

  /** Lines 535-539. `v` is the `String(...)` form of `source_muted`, or
      `None` when the key is absent. Only ASCII letters are lower-cased: no
      other character lower-cases to a letter of the accepted spellings. */
  function ParseMuted(v: Option<string>): (muted: bool)
    ensures v.None? ==> !muted
    ensures v.Some? ==> (muted <==> exists i, j :: PaddedWordAt(v.value, i, j))
  {
    if v.Some? then MutedIffPaddedWord(v.value); MutedText(v.value) else false
  }

  /** A present flag's text, lower-cased and trimmed, is an accepted spelling. */
  predicate MutedText(s: string) { IsMutedWord(Trim(Lower(s))) }

  /** Lower-casing keeps spaces and non-spaces apart. */
  lemma LowerKeepsSpaces(s: string)
    ensures AllSpace(s) ==> AllSpace(Lower(s))
    ensures Trimmed(s) ==> Trimmed(Lower(s))
  {
  }

  lemma {:induction false} LowerAppend(s: string, t: string)
    ensures Lower(s + t) == Lower(s) + Lower(t)
  {
    assert |Lower(s + t)| == |Lower(s) + Lower(t)|;
    forall k | 0 <= k < |s + t| ensures Lower(s + t)[k] == (Lower(s) + Lower(t))[k] {
      if k < |s| { assert (s + t)[k] == s[k]; } else { assert (s + t)[k] == t[k - |s|]; }
    }
  }

  /** An accepted spelling, in any case, padded with white space, is muted. */
  lemma PaddedWordIsMuted(a: string, w: string, b: string)
    requires AllSpace(a) && AllSpace(b) && IsMutedWord(Lower(w))
    ensures MutedText(a + w + b)
  {
    LowerAppend(a + w, b);
    LowerAppend(a, w);
    LowerKeepsSpaces(a);
    LowerKeepsSpaces(b);
    TrimPadded(Lower(a), Lower(w), Lower(b));
  }

  /** Lower-casing commutes with slicing. */
  lemma LowerSlice(s: string, i: int, j: int)
    requires 0 <= i <= j <= |s|
    ensures Lower(s)[i..j] == Lower(s[i..j])
  {
  }

  /** Only spaces lower-case to spaces: white space around a slice of
      `Lower(s)` is white space in `s` too. */
  lemma SpacesUnderLower(s: string, i: int, j: int)
    requires 0 <= i <= j <= |s|
    requires AllSpace(Lower(s)[..i]) && AllSpace(Lower(s)[j..])
    ensures AllSpace(s[..i]) && AllSpace(s[j..])
  {
    forall k | 0 <= k < i ensures IsJsSpace(s[..i][k]) {
      assert Lower(s)[..i][k] == LowerChar(s[k]);
    }
    forall k | 0 <= k < |s| - j ensures IsJsSpace(s[j..][k]) {
      assert Lower(s)[j..][k] == LowerChar(s[j + k]);
    }
  }

  /** Where the trimmed text starts and ends inside `s`. */
  function TrimStartIndex(s: string): (i: nat)
    ensures i <= |s|
  {
    |s| - |TrimStart(s)|
  }

  function TrimEndIndex(s: string): (j: nat)
    ensures TrimStartIndex(s) <= j <= |s|
  {
    TrimStartIndex(s) + |Trim(s)|
  }

  /** `Trim(s)` is the slice between the two indices, with only spaces around it. */
  lemma TrimIsSlice(s: string)
    ensures Trim(s) == s[TrimStartIndex(s)..TrimEndIndex(s)]
    ensures AllSpace(s[..TrimStartIndex(s)]) && AllSpace(s[TrimEndIndex(s)..])
  {
    var t := TrimStart(s);
    var r := TrimEnd(t);
    var i, j := TrimStartIndex(s), TrimEndIndex(s);
    assert Trim(s) == r && i == |s| - |t| && j == i + |r|;
    assert t == s[i..];
    assert r == s[i..j] by {
      assert r == t[..|r|];
    }
    assert AllSpace(s[j..]) by {
      assert AllSpace(t[|r|..]);
      assert t[|r|..] == s[j..];
    }
  }

  /** The spaces around the trimmed text of `Lower(s)` are spaces in `s` too. */
  lemma LowerTrimIsSlice(s: string)
    ensures var l := Lower(s);
      && Trim(l) == Lower(s[TrimStartIndex(l)..TrimEndIndex(l)])
      && AllSpace(s[..TrimStartIndex(l)]) && AllSpace(s[TrimEndIndex(l)..])
  {
    var l := Lower(s);
    var i, j := TrimStartIndex(l), TrimEndIndex(l);
    TrimIsSlice(l);
    LowerSlice(s, i, j);
    SpacesUnderLower(s, i, j);
  }

  /** `s` is an accepted spelling, in some case, between `i` and `j`, with
      only white space before and after. */
  predicate PaddedWordAt(s: string, i: int, j: int) {
    0 <= i <= j <= |s| && AllSpace(s[..i]) && AllSpace(s[j..]) && IsMutedWord(Lower(s[i..j]))
  }

  /** A muted flag is an accepted spelling, in any case, padded with white space. */
  lemma MutedIsPaddedWord(s: string)
    requires MutedText(s)
    ensures exists i, j :: PaddedWordAt(s, i, j)
  {
    LowerTrimIsSlice(s);
    var i, j := TrimStartIndex(Lower(s)), TrimEndIndex(Lower(s));
    assert PaddedWordAt(s, i, j);
  }

  /** A flag is muted exactly when it is present and is an accepted spelling,
      in any case, surrounded by any amount of white space. */
  lemma MutedIffPaddedWord(s: string)
    ensures MutedText(s) <==> exists i, j :: PaddedWordAt(s, i, j)
  {
    if MutedText(s) {
      MutedIsPaddedWord(s);
    }
    forall i, j | PaddedWordAt(s, i, j) ensures MutedText(s) {
      PaddedWordAtIsMuted(s, i, j);
    }
  }

  lemma PaddedWordAtIsMuted(s: string, i: int, j: int)
    requires PaddedWordAt(s, i, j)
    ensures MutedText(s)
  {
    assert s == s[..i] + s[i..j] + s[j..];
    PaddedWordIsMuted(s[..i], s[i..j], s[j..]);
  }

  /** A missing flag is never muted. */
  lemma AbsentNotMuted()
    ensures !ParseMuted(None)
  {
  }

  /** `" Yes "` is muted. */
  lemma PaddedYesMuted()
    ensures ParseMuted(Some(" Yes "))
  {
    assert LowerChar('Y') == 'y' && LowerChar('e') == 'e' && LowerChar('s') == 's';
    LowerWord("Yes", "yes");
    assert " Yes " == " " + "Yes" + " ";
    PaddedWordIsMuted(" ", "Yes", " ");
  }

  /** `"TRUE"` is muted. */
  lemma UpperTrueMuted()
    ensures ParseMuted(Some("TRUE"))
  {
    assert LowerChar('T') == 't' && LowerChar('R') == 'r' && LowerChar('U') == 'u' && LowerChar('E') == 'e';
    LowerWord("TRUE", "true");
    assert "TRUE" == "" + "TRUE" + "";
    PaddedWordIsMuted("", "TRUE", "");
  }

  /** `"no"` is not muted. */
  lemma NoNotMuted()
    ensures !ParseMuted(Some("no"))
  {
    NoTextNotMuted();
  }

  lemma NoTextNotMuted()
    ensures !MutedText("no")
  {
    LowerNo();
    TrimNo();
    NoIsNotAWord();
  }

  lemma LowerNo()
    ensures Lower("no") == "no"
  {
    assert LowerChar('n') == 'n' && LowerChar('o') == 'o';
    LowerWord("no", "no");
  }

  lemma TrimNo()
    ensures Trim("no") == "no"
  {
    assert Trimmed("no");
    TrimPadded("", "no", "");
    assert "" + "no" + "" == "no";
  }

  /** No accepted spelling has two characters. */
  lemma NoIsNotAWord()
    ensures !IsMutedWord("no")
  {
    assert |"no"| == 2 && |"true"| == 4 && |"yes"| == 3 && |"1"| == 1;
  }

  /** Lower-casing a literal, character by character. */
  lemma LowerWord(s: string, t: string)
    requires |s| == |t| && forall k :: 0 <= k < |s| ==> LowerChar(s[k]) == t[k]
    ensures Lower(s) == t
  {
    assert forall k :: 0 <= k < |s| ==> Lower(s)[k] == t[k];
  }

  // ---------------------------------------------------------------------
  // Event routing (483-487)

  /** The one custom event name that reaches the overlay queue. */
  const OverlayEventName: string := "SquidCustomOverlay"

  predicate IsOverlayEvent(eventType: string) { eventType == OverlayEventName }
}
