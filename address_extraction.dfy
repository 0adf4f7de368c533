/** `AddressExtractionService`: mining a reel caption for candidate street
    addresses and for a candidate place name. */
module AddressExtraction {
  import opened Common
  import opened JavaText

  /** A compiled pattern applied with repeated `Matcher.find()`: capture
      group 1 of every match, in the order the matches are found. */
  type Matcher = string -> seq<string>

  /** The caption is null or blank: both extractors return nothing. */
  predicate IsAbsent(caption: Option<string>) {
    caption.None? || IsBlank(caption.value)
  }

  // ---------------------------------------------------------------------
  // Cleaning
  // ---------------------------------------------------------------------

  predicate IsMarker(c: char) {
    c == '#' || c == '@'
  }

  predicate NoMarkers(s: string) {
    forall i :: 0 <= i < |s| ==> !IsMarker(s[i])
  }

  /** Every `\s` character is a plain space and no two of them are adjacent. */
  predicate SingleSpaced(s: string) {
    && (forall i :: 0 <= i < |s| && IsRegexSpace(s[i]) ==> s[i] == ' ')
    && (forall i, j :: 0 <= i && j == i + 1 < |s| ==> !(IsRegexSpace(s[i]) && IsRegexSpace(s[j])))
  }

  /** A character that no cleaning step removes or rewrites: neither a
      marker nor a character up to U+0020 (which covers every `\s`). */
  predicate IsVisible(c: char) {
    !IsMarker(c) && !IsTrimmable(c)
  }

  /** The visible characters of `s`, in order: the text of an address or a
      name, as opposed to its markers and spacing. */
  function Visible(s: string): string {
    if s == [] then [] else (if IsVisible(s[0]) then [s[0]] else []) + Visible(s[1..])
  }

  /** The characters of `s` other than `\s`, in order. */
  function NonSpaces(s: string): string {
    if s == [] then [] else (if IsRegexSpace(s[0]) then [] else [s[0]]) + NonSpaces(s[1..])
  }

  /** Both filters look at the first character, then at the rest. */
  lemma FiltersOfCons(c: char, t: string)
    ensures Visible([c] + t) == (if IsVisible(c) then [c] else []) + Visible(t)
    ensures NonSpaces([c] + t) == (if IsRegexSpace(c) then [] else [c]) + NonSpaces(t)
  {
    assert ([c] + t)[1..] == t;
  }

  lemma {:induction false} VisibleAppend(a: string, b: string)
    ensures Visible(a + b) == Visible(a) + Visible(b)
    decreases |a|
  {
    if a == [] {
      assert a + b == b;
    } else {
      var c, t := a[0], a[1..];
      assert a == [c] + t && a + b == [c] + (t + b);
      FiltersOfCons(c, t);
      FiltersOfCons(c, t + b);
      VisibleAppend(t, b);
      ConcatAssoc(if IsVisible(c) then [c] else [], Visible(t), Visible(b));
    }
  }

  /** A string of visible characters is its own visible text. */
  lemma {:induction false} VisibleOfVisible(s: string)
    requires forall i :: 0 <= i < |s| ==> IsVisible(s[i])
    ensures Visible(s) == s
    decreases |s|
  {
    if s != [] {
      VisibleOfVisible(s[1..]);
    }
  }

  /** Characters up to U+0020 carry no visible text. */
  lemma {:induction false} VisibleOfTrimmable(s: string)
    requires forall i :: 0 <= i < |s| ==> IsTrimmable(s[i])
    ensures Visible(s) == []
    decreases |s|
  {
    if s != [] {
      VisibleOfTrimmable(s[1..]);
    }
  }

  /** Dropping a leading run of `\s` changes neither the visible text nor
      the characters other than `\s`. */
  lemma {:induction false} SpaceRunInvisible(s: string, k: nat)
    requires k <= |s|
    requires forall j :: 0 <= j < k ==> IsRegexSpace(s[j])
    ensures Visible(s) == Visible(s[k..]) && NonSpaces(s) == NonSpaces(s[k..])
    decreases k
  {
    if k > 0 {
      assert s[1..][k - 1..] == s[k..];
      SpaceRunInvisible(s[1..], k - 1);
    }
  }

  /** `trim()` removes no visible character. */
  lemma TrimKeepsVisible(s: string)
    ensures Visible(Trim(s)) == Visible(s)
  {
    var a := TrimOffset(s);
    var r := Trim(s);
    var b := a + |r|;
    assert s == s[..a] + r + s[b..];
    VisibleAppend(s[..a] + r, s[b..]);
    VisibleAppend(s[..a], r);
    VisibleOfTrimmable(s[..a]);
    VisibleOfTrimmable(s[b..]);
  }

  /** `replaceAll("[#@]", "")`: the markers go and the visible text stays;
      `StripMarkersKeepsOthers` and `StripMarkersAppend` add that every other
      character is kept, as often as it occurs and in order. */
  function StripMarkers(s: string): (r: string)
    ensures NoMarkers(r)
    ensures NoMarkers(s) ==> r == s
    ensures Visible(r) == Visible(s)
  {
    if s == [] then []
    else
      var t := StripMarkers(s[1..]);
      FiltersOfCons(s[0], s[1..]);
      if IsMarker(s[0]) then t
      else
        FiltersOfCons(s[0], t);
        [s[0]] + t
  }

  /** Every character other than `#` and `@` is kept as often as it occurs. */
  lemma {:induction false} StripMarkersKeepsOthers(s: string)
    ensures forall c :: !IsMarker(c) ==> multiset(StripMarkers(s))[c] == multiset(s)[c]
    decreases |s|
  {
    if s != [] {
      StripMarkersKeepsOthers(s[1..]);
      assert s == [s[0]] + s[1..];
    }
  }

  /** Markers are removed piece by piece: the result for a concatenation is
      the concatenation of the results, so the kept characters stay in order. */
  lemma {:induction false} StripMarkersAppend(a: string, b: string)
    ensures StripMarkers(a + b) == StripMarkers(a) + StripMarkers(b)
    decreases |a|
  {
    if a == [] {
      assert a + b == b;
    } else {
      assert (a + b)[1..] == a[1..] + b;
      StripMarkersAppend(a[1..], b);
    }
  }

  /** The end of the run of `\s` characters that starts at index `i`. */
  function SpaceRunEnd(s: string, i: nat): (k: nat)
    requires i <= |s|
    ensures i <= k <= |s|
    ensures forall j :: i <= j < k ==> IsRegexSpace(s[j])
    ensures k == |s| || !IsRegexSpace(s[k])
    decreases |s| - i
  {
    if i < |s| && IsRegexSpace(s[i]) then SpaceRunEnd(s, i + 1) else i
  }

  /** `replaceAll("\\s+", " ")`: every run of `\s` becomes one space. The
      characters other than `\s` are kept, in order; a string that is one
      run becomes a single space; `CollapseSpacesAppend` shows that runs
      are collapsed independently of each other. */
  function CollapseSpaces(s: string): (r: string)
    ensures SingleSpaced(r)
    ensures NoMarkers(s) ==> NoMarkers(r)
    ensures SingleSpaced(s) ==> r == s
    ensures r != [] ==> s != [] && (IsRegexSpace(r[0]) <==> IsRegexSpace(s[0]))
    decreases |s|
  {
    if s == [] then []
    else if IsRegexSpace(s[0]) then
      var k := SpaceRunEnd(s, 0);
      assert SingleSpaced(s) ==> |s| == 1 || !IsRegexSpace(s[1]);
      assert SingleSpaced(s) ==> SpaceRunEnd(s, 1) == 1;
      [' '] + CollapseSpaces(s[k..])
    else [s[0]] + CollapseSpaces(s[1..])
  }

  /** What collapsing keeps: the characters other than `\s`, in order, and
      a string that is one run becomes a single space. */
  lemma {:induction false} CollapseSpacesKeeps(s: string)
    ensures NonSpaces(CollapseSpaces(s)) == NonSpaces(s)
    ensures s != [] && (forall i :: 0 <= i < |s| ==> IsRegexSpace(s[i])) ==> CollapseSpaces(s) == " "
    decreases |s|
  {
    if s != [] {
      if IsRegexSpace(s[0]) {
        var k := SpaceRunEnd(s, 0);
        SpaceRunInvisible(s, k);
        CollapseSpacesKeeps(s[k..]);
        FiltersOfCons(' ', CollapseSpaces(s[k..]));
      } else {
        CollapseSpacesKeeps(s[1..]);
        FiltersOfCons(s[0], s[1..]);
        FiltersOfCons(s[0], CollapseSpaces(s[1..]));
      }
    }
  }

  /** The visible text is the visible part of the characters other than `\s`. */
  lemma {:induction false} VisibleOfNonSpaces(s: string)
    ensures Visible(NonSpaces(s)) == Visible(s)
    decreases |s|
  {
    if s != [] {
      VisibleOfNonSpaces(s[1..]);
      assert s == [s[0]] + s[1..];
      FiltersOfCons(s[0], s[1..]);
      if IsRegexSpace(s[0]) {
        assert !IsVisible(s[0]);
        assert NonSpaces(s) == NonSpaces(s[1..]);
      } else {
        FiltersOfCons(s[0], NonSpaces(s[1..]));
      }
    }
  }

  /** Collapsing keeps the visible text. */
  lemma CollapseKeepsVisible(s: string)
    ensures Visible(CollapseSpaces(s)) == Visible(s)
  {
    CollapseSpacesKeeps(s);
    VisibleOfNonSpaces(s);
    VisibleOfNonSpaces(CollapseSpaces(s));
  }

  /** A run of `\s` that ends inside `a`, or at the end of `a` when `b` does
      not start with `\s`, ends at the same index in `a + b`. */
  lemma {:induction false} SpaceRunEndAppend(a: string, b: string, i: nat)
    requires i <= |a|
    requires SpaceRunEnd(a, i) < |a| || b == [] || !IsRegexSpace(b[0])
    ensures SpaceRunEnd(a + b, i) == SpaceRunEnd(a, i)
    decreases |a| - i
  {
    if i < |a| && IsRegexSpace(a[i]) {
      SpaceRunEndAppend(a, b, i + 1);
    }
  }

  /** Collapsing is done run by run: cutting a string anywhere but inside a
      run of `\s` and collapsing the pieces gives the same result. */
  lemma {:induction false} CollapseSpacesAppend(a: string, b: string)
    requires a == [] || b == [] || !IsRegexSpace(a[|a| - 1]) || !IsRegexSpace(b[0])
    ensures CollapseSpaces(a + b) == CollapseSpaces(a) + CollapseSpaces(b)
    decreases |a|
  {
    if a == [] {
      assert a + b == b;
    } else {
      var h, t := CollapseHead(a, b);
      CollapseSpacesAppend(t, b);
      ConcatAssoc(h, CollapseSpaces(t), CollapseSpaces(b));
    }
  }

  /** The first step of collapsing `a` and `a + b`: the same head `h`
      (the first character, or one space for a leading run), then the
      collapse of what follows it, `t` or `t + b`. */
  lemma CollapseHead(a: string, b: string) returns (h: string, t: string)
    requires a != []
    requires b == [] || !IsRegexSpace(a[|a| - 1]) || !IsRegexSpace(b[0])
    ensures |t| < |a|
    ensures t == [] || b == [] || !IsRegexSpace(t[|t| - 1]) || !IsRegexSpace(b[0])
    ensures CollapseSpaces(a) == h + CollapseSpaces(t)
    ensures CollapseSpaces(a + b) == h + CollapseSpaces(t + b)
  {
    if !IsRegexSpace(a[0]) {
      h, t := [a[0]], a[1..];
      assert (a + b)[0] == a[0] && (a + b)[1..] == t + b;
    } else {
      var k := SpaceRunEnd(a, 0);
      h, t := [' '], a[k..];
      assert k == |a| ==> IsRegexSpace(a[|a| - 1]);
      SpaceRunEndAppend(a, b, 0);
      assert (a + b)[0] == a[0] && (a + b)[k..] == t + b;
      assert t != [] ==> t[|t| - 1] == a[|a| - 1];
    }
  }

  /** Slicing keeps a string free of markers and single-spaced. */
  lemma SliceKeepsClean(s: string, a: nat, b: nat)
    requires a <= b <= |s|
    ensures NoMarkers(s) ==> NoMarkers(s[a..b])
    ensures SingleSpaced(s) ==> SingleSpaced(s[a..b])
  {
    if SingleSpaced(s) {
      var t := s[a..b];
      assert forall i :: 0 <= i < |t| ==> t[i] == s[a + i];
    }
  }

  /** `trim()` keeps a string free of markers and single-spaced. */
  lemma TrimKeepsClean(s: string)
    ensures NoMarkers(s) ==> NoMarkers(Trim(s))
    ensures SingleSpaced(s) ==> SingleSpaced(Trim(s))
  {
    SliceKeepsClean(s, TrimOffset(s), TrimOffset(s) + |Trim(s)|);
  }

  /** `cleanAddress`: markers removed, whitespace runs collapsed, trimmed.
      The visible text of the address is kept exactly, in order. */
  function CleanAddress(s: string): (r: string)
    ensures NoMarkers(r) && SingleSpaced(r) && IsTrimmed(r)
    ensures Visible(r) == Visible(s)
  {
    var c := CollapseSpaces(StripMarkers(s));
    TrimKeepsClean(c);
    TrimKeepsVisible(c);
    CollapseKeepsVisible(StripMarkers(s));
    Trim(c)
  }

  /** Cleaning an address twice is cleaning it once. */
  lemma {:induction false} CleanAddressIdempotent(s: string)
    ensures CleanAddress(CleanAddress(s)) == CleanAddress(s)
  {
    var once := CleanAddress(s);
    assert StripMarkers(once) == once;
    assert CollapseSpaces(once) == once;
    TrimOfTrimmed(once);
  }

  /** Collapsing two single-spaced pieces separated by a run of `\s` gives
      the pieces joined by one space. */
  lemma CollapseJoinsWords(a: string, gap: string, b: string)
    requires a != [] && SingleSpaced(a) && !IsRegexSpace(a[|a| - 1])
    requires b != [] && SingleSpaced(b) && !IsRegexSpace(b[0])
    requires gap != [] && forall i :: 0 <= i < |gap| ==> IsRegexSpace(gap[i])
    ensures CollapseSpaces(a + gap + b) == a + " " + b
  {
    CollapseSpacesKeeps(gap);
    CollapseSpacesAppend(gap, b);
    assert (gap + b)[0] == gap[0];
    CollapseSpacesAppend(a, gap + b);
    ConcatAssoc(a, gap, b);
    ConcatAssoc(a, " ", b);
  }

  lemma ConcatAssoc(x: string, y: string, z: string)
    ensures x + (y + z) == x + y + z
  {
  }

  /** Two clean pieces of an address separated by any run of `\s` come out
      joined by exactly one space. */
  lemma {:induction false} CleanAddressJoinsWords(a: string, gap: string, b: string)
    requires a != [] && NoMarkers(a) && SingleSpaced(a) && IsTrimmed(a)
    requires b != [] && NoMarkers(b) && SingleSpaced(b) && IsTrimmed(b)
    requires gap != [] && forall i :: 0 <= i < |gap| ==> IsRegexSpace(gap[i])
    ensures CleanAddress(a + gap + b) == a + " " + b
  {
    var s := a + gap + b;
    assert NoMarkers(s) by {
      assert forall i :: |a| <= i < |a| + |gap| ==> s[i] == gap[i - |a|];
      assert forall i :: |a| + |gap| <= i < |s| ==> s[i] == b[i - |a| - |gap|];
    }
    assert StripMarkers(s) == s;
    CollapseJoinsWords(a, gap, b);
    var t := a + " " + b;
    assert t[0] == a[0] && t[|t| - 1] == b[|b| - 1];
    TrimOfTrimmed(t);
  }

  /** The category words `cleanPlaceName` strips from the front, in the
      order the alternation tries them. */
  const Categories: seq<string> := ["카페", "맛집", "식당", "바"]

  /** How many characters of `s` the alternation `^(카페|맛집|식당|바)`
      matches: the length of the category word `s` starts with, or 0 when
      it starts with none. */
  function CategoryPrefixLength(s: string): (n: nat)
    ensures n <= |s|
    ensures n > 0 <==> exists k :: 0 <= k < |Categories| && StartsWith(s, Categories[k])
    ensures forall k :: 0 <= k < |Categories| && StartsWith(s, Categories[k]) ==> n == |Categories[k]|
    ensures n > 0 ==> s[..n] in Categories
  {
    forall k | 0 <= k < |Categories| && StartsWith(s, Categories[k])
      ensures s[0] == Categories[k][0]
    {
      assert s[..|Categories[k]|][0] == s[0];
    }
    if StartsWith(s, "카페") then
      assert StartsWith(s, Categories[0]);
      2
    else if StartsWith(s, "맛집") then
      assert StartsWith(s, Categories[1]);
      2
    else if StartsWith(s, "식당") then
      assert StartsWith(s, Categories[2]);
      2
    else if StartsWith(s, "바") then
      assert StartsWith(s, Categories[3]);
      1
    else 0
  }

  /** The category words are Hangul: visible, and free of `\s`. */
  lemma CategoryWordVisible(w: string)
    requires w in Categories
    ensures forall i :: 0 <= i < |w| ==> IsVisible(w[i]) && !IsRegexSpace(w[i])
  {
    assert w == Categories[0] || w == Categories[1] || w == Categories[2] || w == Categories[3];
  }

  /** `replaceAll("^(카페|맛집|식당|바)\\s*", "")`: a leading category word is
      removed together with the whole run of `\s` after it. */
  function StripCategory(s: string): (r: string)
    ensures |r| <= |s| && r == s[|s| - |r|..]
    ensures CategoryPrefixLength(s) == 0 ==> r == s
    ensures var n := CategoryPrefixLength(s);
      n > 0 ==>
        && n <= |s| - |r|
        && (forall i :: n <= i < |s| - |r| ==> IsRegexSpace(s[i]))
        && (r == [] || !IsRegexSpace(r[0]))
    ensures NoMarkers(s) ==> NoMarkers(r)
    ensures SingleSpaced(s) ==> SingleSpaced(r)
  {
    var n := CategoryPrefixLength(s);
    if n == 0 then s
    else
      var k := SpaceRunEnd(s, n);
      SliceKeepsClean(s, k, |s|);
      s[k..]
  }

  /** Collapsing keeps a leading word that has no `\s` in it. */
  lemma {:induction false} CollapseKeepsLeadingWord(x: string, w: string)
    requires forall i :: 0 <= i < |w| ==> !IsRegexSpace(w[i])
    ensures StartsWith(CollapseSpaces(x), w) <==> StartsWith(x, w)
    decreases |w|
  {
    if w != [] && x != [] && !IsRegexSpace(x[0]) {
      CollapseKeepsLeadingWord(x[1..], w[1..]);
      assert StartsWith(x, w) <==> x[0] == w[0] && StartsWith(x[1..], w[1..]) by {
        if |w| <= |x| {
          assert x[..|w|] == [x[0]] + x[1..][..|w| - 1];
          assert w == [w[0]] + w[1..];
        }
      }
      var c := CollapseSpaces(x);
      assert c == [x[0]] + CollapseSpaces(x[1..]);
      assert StartsWith(c, w) <==> c[0] == w[0] && StartsWith(c[1..], w[1..]) by {
        if |w| <= |c| {
          assert c[..|w|] == [c[0]] + c[1..][..|w| - 1];
          assert w == [w[0]] + w[1..];
        }
      }
    }
  }

  /** `cleanPlaceName`: markers removed, whitespace collapsed, one leading
      category word removed, trimmed. The visible text of the name is kept,
      in order, except for that category word: it goes exactly when the
      name, once its markers are gone, starts with one. */
  function CleanPlaceName(s: string): (r: string)
    ensures NoMarkers(r) && SingleSpaced(r) && IsTrimmed(r)
    ensures var v := Visible(s); var d := |v| - |Visible(r)|;
      && 0 <= d && Visible(r) == v[d..]
      && (d > 0 <==> exists k :: 0 <= k < |Categories| && StartsWith(StripMarkers(s), Categories[k]))
      && (d > 0 ==> v[..d] in Categories)
  {
    var m := StripMarkers(s);
    var c := CollapseSpaces(m);
    var p := StripCategory(c);
    TrimKeepsClean(p);
    TrimKeepsVisible(p);
    CategoryStripVisible(s, m, c, p);
    Trim(p)
  }

  /** The visible text that `StripCategory` removes is the category word. */
  lemma CategoryStripVisible(s: string, m: string, c: string, p: string)
    requires m == StripMarkers(s) && c == CollapseSpaces(m) && p == StripCategory(c)
    ensures var v := Visible(s); var d := |v| - |Visible(p)|;
      && 0 <= d && Visible(p) == v[d..]
      && (d > 0 <==> exists k :: 0 <= k < |Categories| && StartsWith(m, Categories[k]))
      && (d > 0 ==> v[..d] in Categories)
  {
    CollapseKeepsVisible(m);
    CategoryBeforeCollapse(m);
    StrippedCategoryVisible(c, p);
  }

  /** Collapsing does not change which category word a string starts with. */
  lemma CategoryBeforeCollapse(m: string)
    ensures forall k :: 0 <= k < |Categories| ==>
      (StartsWith(CollapseSpaces(m), Categories[k]) <==> StartsWith(m, Categories[k]))
  {
    forall k | 0 <= k < |Categories|
      ensures StartsWith(CollapseSpaces(m), Categories[k]) <==> StartsWith(m, Categories[k])
    {
      CategoryWordVisible(Categories[k]);
      CollapseKeepsLeadingWord(m, Categories[k]);
    }
  }

  /** Of the visible text, `StripCategory` removes exactly the category word. */
  lemma StrippedCategoryVisible(c: string, p: string)
    requires p == StripCategory(c)
    ensures var n := CategoryPrefixLength(c);
      && (n == 0 ==> Visible(p) == Visible(c))
      && (n > 0 ==> Visible(c) == c[..n] + Visible(p) && c[..n] in Categories)
  {
    var n := CategoryPrefixLength(c);
    if n > 0 {
      var k := SpaceRunEnd(c, n);
      assert p == c[k..];
      var w, gap := c[..n], c[n..k];
      assert c == w + gap + p;
      CategoryWordVisible(w);
      forall i | 0 <= i < |gap|
        ensures IsTrimmable(gap[i])
      {
        assert gap[i] == c[n + i];
      }
      VisibleOfWordGapRest(w, gap, p);
    }
  }

  /** A visible word, then characters up to U+0020, then the rest: the
      visible text is the word followed by that of the rest. */
  lemma VisibleOfWordGapRest(w: string, gap: string, rest: string)
    requires forall i :: 0 <= i < |w| ==> IsVisible(w[i])
    requires forall i :: 0 <= i < |gap| ==> IsTrimmable(gap[i])
    ensures Visible(w + gap + rest) == w + Visible(rest)
  {
    VisibleOfVisible(w);
    VisibleOfTrimmable(gap);
    var head := w + gap;
    assert Visible(head) == w by {
      VisibleAppend(w, gap);
      assert Visible(w) + Visible(gap) == w + [];
    }
    VisibleAppend(head, rest);
  }

  /** A leading category word and the space after it are stripped once and
      only once: a clean name `w` behind "카페 " comes back unchanged, even
      when `w` itself starts with a category word. */
  lemma {:induction false} CategoryWordStrippedOnce(w: string)
    requires NoMarkers(w) && SingleSpaced(w) && IsTrimmed(w) && w != []
    ensures CleanPlaceName("카페 " + w) == w
  {
    var s := "카페 " + w;
    assert !IsRegexSpace(w[0]);
    assert NoMarkers(s);
    assert SingleSpaced(s) by {
      assert forall i :: 3 <= i < |s| ==> s[i] == w[i - 3];
    }
    assert CollapseSpaces(StripMarkers(s)) == s;
    assert s[..2] == "카페";
    assert CategoryPrefixLength(s) == 2;
    assert s[2..] == [' '] + w;
    assert SpaceRunEnd(s, 2) == 3;
    assert s[3..] == w;
    assert StripCategory(s) == w;
    TrimOfTrimmed(w);
  }

  /** The generic words `isValidPlaceName` rejects. */
  const Blacklist: seq<string> := ["오늘", "여기", "진짜", "추천", "데이트", "맛집", "카페", "식당", "술집", "분위기", "핫플", "코스"]

  /** `isValidPlaceName`: no blacklisted word equals the name ignoring case. */
  predicate IsValidPlaceName(name: string) {
    forall k :: 0 <= k < |Blacklist| ==> !EqualsIgnoreCase(name, Blacklist[k])
  }

  /** Every blacklisted word is Hangul, so ignoring case changes nothing. */
  lemma ValidPlaceNameIsNotBlacklisted(name: string)
    ensures IsValidPlaceName(name) <==> name !in Blacklist
  {
    forall k | 0 <= k < |Blacklist|
      ensures EqualsIgnoreCase(name, Blacklist[k]) <==> name == Blacklist[k]
    {
      var w := Blacklist[k];
      assert forall i :: 0 <= i < |w| ==> w[i] as int >= 0xAC00;
      EqualsIgnoreCaseCaseless(name, w);
    }
  }

  /** The test an extracted place name must pass. */
  predicate IsAcceptableName(name: string) {
    Utf16Length(name) >= 2 && IsValidPlaceName(name)
  }

  // ---------------------------------------------------------------------
  // The label and pin patterns, matched as java.util.regex does
  // ---------------------------------------------------------------------

  predicate IsColon(c: char) {
    c == ':' || c == '：'
  }

  /** Greedy `\s*` from `i`: the first index at or after `i` that is not `\s`. */
  function SkipSpaces(s: string, i: nat): (j: nat)
    requires i <= |s|
    ensures i <= j <= |s|
    ensures forall k :: i <= k < j ==> IsRegexSpace(s[k])
    ensures j == |s| || !IsRegexSpace(s[j])
    decreases |s| - i
  {
    if i < |s| && IsRegexSpace(s[i]) then SkipSpaces(s, i + 1) else i
  }

  /** Greedy `[^\n]*` from `i`: the next line feed or the end. */
  function LineEnd(s: string, i: nat): (e: nat)
    requires i <= |s|
    ensures i <= e <= |s|
    ensures forall k :: i <= k < e ==> s[k] != '\n'
    ensures e == |s| || s[e] == '\n'
    decreases |s| - i
  {
    if i < |s| && s[i] != '\n' then LineEnd(s, i + 1) else i
  }

  /** The last index in [lo, hi) that is not a line feed. */
  function LastNonNewline(s: string, lo: nat, hi: nat): (r: Option<nat>)
    requires lo <= hi <= |s|
    ensures r.Some? ==> lo <= r.value < hi && s[r.value] != '\n'
    ensures r.Some? ==> forall k :: r.value < k < hi ==> s[k] == '\n'
    ensures r.None? ==> forall k :: lo <= k < hi ==> s[k] == '\n'
    decreases hi - lo
  {
    if hi == lo then None
    else if s[hi - 1] != '\n' then Some(hi - 1)
    else LastNonNewline(s, lo, hi - 1)
  }

  /** `\s*([^\n]+)` at `i`: the span of the group. The longest `\s*` is tried
      first; when nothing is left for the group on that line, characters
      are given back one at a time, so the group is the last space before
      the line feeds. */
  function GroupAfter(s: string, i: nat): (span: Option<(nat, nat)>)
    requires i <= |s|
    ensures span.Some? ==> i <= span.value.0 < span.value.1 <= |s|
    ensures span.Some? ==> forall k :: span.value.0 <= k < span.value.1 ==> s[k] != '\n'
  {
    var m := SkipSpaces(s, i);
    var e := LineEnd(s, m);
    if m < e then Some((m, e))
    else match LastNonNewline(s, i, m)
      case Some(p) => Some((p, p + 1))
      case None => None
  }

  /** `<prefix>\s*[:：]\s*([^\n]+)` (with `colon`) or `<prefix>\s*([^\n]+)`
      attempted at index `i`. */
  function MatchAt(s: string, prefix: string, colon: bool, i: nat): (span: Option<(nat, nat)>)
    requires i <= |s|
    ensures span.Some? ==> i + |prefix| <= span.value.0 < span.value.1 <= |s|
    ensures span.Some? ==> forall k :: span.value.0 <= k < span.value.1 ==> s[k] != '\n'
  {
    if !OccursAt(s, prefix, i) then None
    else if colon then
      var j := SkipSpaces(s, i + |prefix|);
      if j < |s| && IsColon(s[j]) then GroupAfter(s, j + 1) else None
    else GroupAfter(s, i + |prefix|)
  }

  /** Repeated `find()` from `from`: each capture is a non-empty piece of a
      single line. */
  function PrefixCaptures(s: string, prefix: string, colon: bool, from: nat): (caps: seq<string>)
    requires |prefix| > 0 && from <= |s|
    ensures forall k :: 0 <= k < |caps| ==> |caps[k]| > 0 && '\n' !in caps[k]
    decreases |s| - from
  {
    if from == |s| then []
    else match MatchAt(s, prefix, colon, from)
      case Some(span) =>
        var c := s[span.0..span.1];
        assert forall k :: 0 <= k < |c| ==> c[k] != '\n';
        [c] + PrefixCaptures(s, prefix, colon, span.1)
      case None => PrefixCaptures(s, prefix, colon, from + 1)
  }

  function LabelMatcher(word: string): Matcher
    requires |word| > 0
  {
    s => PrefixCaptures(s, word, true, 0)
  }

  function PinMatcher(): Matcher {
    s => PrefixCaptures(s, "📍", false, 0)
  }

  /** `ADDRESS_PATTERNS`: the "주소:" label, the "위치:" label, the pin emoji,
      then the `@`-tag pattern and the general region/district/street
      pattern, which are given as matchers. */
  function AddressPatterns(tag: Matcher, general: Matcher): seq<Matcher> {
    [LabelMatcher("주소"), LabelMatcher("위치"), PinMatcher(), tag, general]
  }

  // ---------------------------------------------------------------------
  // Address extraction
  // ---------------------------------------------------------------------

  /** Every capture of every pattern: patterns in order, each pattern's
      matches in the order found. */
  function AllCaptures(caption: string, patterns: seq<Matcher>): seq<string> {
    if patterns == [] then []
    else AllCaptures(caption, patterns[..|patterns| - 1]) + patterns[|patterns| - 1](caption)
  }

  /** `f` applied to every element, in order. */
  function MapAll(f: string -> string, xs: seq<string>): (ys: seq<string>)
    ensures |ys| == |xs|
  {
    if xs == [] then []
    else MapAll(f, xs[..|xs| - 1]) + [f(xs[|xs| - 1])]
  }

  lemma {:induction false} MapAllAppend(f: string -> string, xs: seq<string>, ys: seq<string>)
    ensures MapAll(f, xs + ys) == MapAll(f, xs) + MapAll(f, ys)
    decreases |ys|
  {
    if ys == [] {
      assert xs + ys == xs;
    } else {
      var ys0 := ys[..|ys| - 1];
      assert (xs + ys)[..|xs + ys| - 1] == xs + ys0;
      MapAllAppend(f, xs, ys0);
    }
  }

  /** The captures after `cleanAddress`, in the same order. */
  function Cleaned(captures: seq<string>): seq<string> {
    MapAll(CleanAddress, captures)
  }

  /** The list `extractAddresses` builds from a sequence of cleaned
      captures: each one of length at least 5 is appended unless the list
      already holds it. */
  function Gathered(ys: seq<string>): seq<string> {
    if ys == [] then []
    else
      var acc := Gathered(ys[..|ys| - 1]);
      var y := ys[|ys| - 1];
      if Utf16Length(y) >= 5 && y !in acc then acc + [y] else acc
  }

  /** What `extractAddresses` returns. */
  function AddressesOf(caption: Option<string>, patterns: seq<Matcher>): seq<string> {
    if IsAbsent(caption) then [] else Gathered(Cleaned(AllCaptures(caption.value, patterns)))
  }

  /** The index of the first occurrence of `x` in `ys`, or `|ys|`. */
  function FirstIndex(ys: seq<string>, x: string): (n: nat)
    ensures n <= |ys|
    ensures n < |ys| <==> x in ys
    ensures n < |ys| ==> ys[n] == x && x !in ys[..n]
  {
    if ys == [] then 0
    else
      var init := ys[..|ys| - 1];
      assert ys == init + [ys[|ys| - 1]];
      if x in init then
        var n := FirstIndex(init, x);
        assert ys[..n] == init[..n];
        n
      else if ys[|ys| - 1] == x then |ys| - 1
      else |ys|
  }

  predicate NoDuplicates(xs: seq<string>) {
    forall a, b :: 0 <= a < b < |xs| ==> xs[a] != xs[b]
  }

  /** Appending an element leaves the first index of every earlier
      element where it was. */
  lemma FirstIndexAppend(ys: seq<string>, y: string, x: string)
    requires x in ys
    ensures FirstIndex(ys + [y], x) == FirstIndex(ys, x)
  {
    assert (ys + [y])[..|ys + [y]| - 1] == ys;
  }

  /** The list gathered from the cleaned captures holds exactly those of
      length at least 5, each once. */
  lemma {:induction false} GatheredContents(ys: seq<string>)
    ensures var r := Gathered(ys);
      && (forall k :: 0 <= k < |r| ==> Utf16Length(r[k]) >= 5)
      && NoDuplicates(r)
      && (forall x :: x in r <==> x in ys && Utf16Length(x) >= 5)
  {
    if ys != [] {
      var ys0 := ys[..|ys| - 1];
      GatheredContents(ys0);
      assert ys == ys0 + [ys[|ys| - 1]];
    }
  }

  /** The gathered list keeps the order in which its elements first occur. */
  lemma {:induction false} GatheredOrder(ys: seq<string>)
    ensures var r := Gathered(ys);
      forall a, b :: 0 <= a < b < |r| ==> FirstIndex(ys, r[a]) < FirstIndex(ys, r[b])
  {
    if ys != [] {
      var ys0 := ys[..|ys| - 1];
      var y := ys[|ys| - 1];
      GatheredOrder(ys0);
      GatheredContents(ys0);
      var r0 := Gathered(ys0);
      var r := Gathered(ys);
      assert ys == ys0 + [y];
      forall x | x in ys0
        ensures FirstIndex(ys, x) == FirstIndex(ys0, x)
      {
        FirstIndexAppend(ys0, y, x);
      }
      if Utf16Length(y) >= 5 && y !in r0 {
        assert r == r0 + [y];
        assert FirstIndex(ys, y) == |ys0|;
        forall a, b | 0 <= a < b < |r|
          ensures FirstIndex(ys, r[a]) < FirstIndex(ys, r[b])
        {
          assert r[a] in r0;
          if b < |r0| {
            assert r[b] in r0;
          }
        }
      } else {
        assert r == r0;
      }
    }
  }

  /** Both together: exactly the captures of length at least 5, each once,
      in the order of their first occurrence. */
  lemma GatheredSpec(ys: seq<string>)
    ensures var r := Gathered(ys);
      && (forall k :: 0 <= k < |r| ==> Utf16Length(r[k]) >= 5)
      && NoDuplicates(r)
      && (forall x :: x in r <==> x in ys && Utf16Length(x) >= 5)
      && (forall a, b :: 0 <= a < b < |r| ==> FirstIndex(ys, r[a]) < FirstIndex(ys, r[b]))
  {
    GatheredContents(ys);
    GatheredOrder(ys);
  }

  /** The loop body of `extractAddresses` for one capture. */
  method Admit(addresses: seq<string>, ghost before: seq<string>, capture: string) returns (r: seq<string>)
    requires addresses == Gathered(before)
    ensures r == Gathered(before + Cleaned([capture]))
  {
    var address := CleanAddress(capture);
    assert Cleaned([capture]) == [address];
    ghost var next := before + [address];
    assert next[..|next| - 1] == before;
    r := addresses;
    if Utf16Length(address) >= 5 && address !in addresses {
      r := addresses + [address];
    }
  }

  lemma CleanedStep(before: seq<string>, captures: seq<string>, i: nat)
    requires i < |captures|
    ensures before + Cleaned(captures[..i + 1]) == (before + Cleaned(captures[..i])) + Cleaned([captures[i]])
  {
    assert captures[..i + 1] == captures[..i] + [captures[i]];
    MapAllAppend(CleanAddress, captures[..i], [captures[i]]);
  }

  /** The inner loop of `extractAddresses`: the captures of one pattern
      offered to the list in order. */
  method AdmitAll(addresses: seq<string>, ghost before: seq<string>, captures: seq<string>) returns (r: seq<string>)
    requires addresses == Gathered(before)
    ensures r == Gathered(before + Cleaned(captures))
  {
    r := addresses;
    assert before + Cleaned(captures[..0]) == before;
    for i := 0 to |captures|
      invariant r == Gathered(before + Cleaned(captures[..i]))
    {
      r := Admit(r, before + Cleaned(captures[..i]), captures[i]);
      CleanedStep(before, captures, i);
    }
    assert captures[..|captures|] == captures;
  }

  /** `extractAddresses`: runs every pattern over the caption and keeps each
      cleaned capture of length at least 5 that is not yet in the list;
      the result holds exactly the cleaned captures of length at least 5,
      each once, in the order they were first found. */
  method ExtractAddresses(caption: Option<string>, patterns: seq<Matcher>) returns (addresses: seq<string>)
    ensures addresses == AddressesOf(caption, patterns)
    ensures forall k :: 0 <= k < |addresses| ==> Utf16Length(addresses[k]) >= 5
    ensures NoDuplicates(addresses)
    ensures !IsAbsent(caption) ==> forall x :: x in addresses <==>
      x in Cleaned(AllCaptures(caption.value, patterns)) && Utf16Length(x) >= 5
  {
    if caption.None? || IsBlank(caption.value) {
      return [];
    }
    var text := caption.value;
    addresses := [];
    ghost var cleaned: seq<string> := [];
    for p := 0 to |patterns|
      invariant cleaned == Cleaned(AllCaptures(text, patterns[..p]))
      invariant addresses == Gathered(cleaned)
    {
      var captures := patterns[p](text);
      addresses := AdmitAll(addresses, cleaned, captures);
      assert patterns[..p + 1][..p] == patterns[..p];
      MapAllAppend(CleanAddress, AllCaptures(text, patterns[..p]), captures);
      cleaned := cleaned + Cleaned(captures);
    }
    assert patterns[..|patterns|] == patterns;
    GatheredSpec(cleaned);
  }

  /** The 주소 label on "주소: 서울" captures "서울". */
  lemma LabelCaptureOfShortAddress()
    ensures PrefixCaptures("주소: 서울", "주소", true, 0) == ["서울"]
  {
    var c := "주소: 서울";
    assert OccursAt(c, "주소", 0);
    assert SkipSpaces(c, 2) == 2;
    assert SkipSpaces(c, 3) == 4;
    assert LineEnd(c, 4) == 6;
    assert MatchAt(c, "주소", true, 0) == Some((4, 6));
    assert c[4..6] == "서울";
  }

  /** A pattern whose prefix occurs nowhere captures nothing. */
  lemma {:induction false} NoPrefixNoCaptures(s: string, prefix: string, colon: bool, from: nat)
    requires |prefix| > 0 && from <= |s|
    requires forall i :: from <= i < |s| ==> !OccursAt(s, prefix, i)
    ensures PrefixCaptures(s, prefix, colon, from) == []
    decreases |s| - from
  {
    if from < |s| {
      NoPrefixNoCaptures(s, prefix, colon, from + 1);
    }
  }

  /** Neither the 위치 label nor the pin occurs in "주소: 서울". */
  lemma OtherLabelsAbsentFromShortAddress()
    ensures PrefixCaptures("주소: 서울", "위치", true, 0) == []
    ensures PrefixCaptures("주소: 서울", "📍", false, 0) == []
  {
    var c := "주소: 서울";
    forall i | 0 <= i < |c|
      ensures !OccursAt(c, "위치", i) && !OccursAt(c, "📍", i)
    {
      assert c[i] != '위' && c[i] != '📍';
      if i + 2 <= |c| {
        assert c[i..i + 2][0] == c[i];
      }
      assert c[i..i + 1][0] == c[i];
    }
    NoPrefixNoCaptures(c, "위치", true, 0);
    NoPrefixNoCaptures(c, "📍", false, 0);
  }

  /** With five patterns, the captures are those of each pattern in turn. */
  lemma AllCapturesOfFive(c: string, ps: seq<Matcher>)
    requires |ps| == 5
    ensures AllCaptures(c, ps) == ps[0](c) + ps[1](c) + ps[2](c) + ps[3](c) + ps[4](c)
  {
    assert ps[..1][..0] == [] && ps[..2][..1] == ps[..1] && ps[..3][..2] == ps[..2];
    assert ps[..4][..3] == ps[..3] && ps[..5][..4] == ps[..4] && ps[..5] == ps;
    assert AllCaptures(c, ps[..1]) == ps[0](c);
    assert AllCaptures(c, ps[..2]) == ps[0](c) + ps[1](c);
    assert AllCaptures(c, ps[..3]) == ps[0](c) + ps[1](c) + ps[2](c);
    assert AllCaptures(c, ps[..4]) == ps[0](c) + ps[1](c) + ps[2](c) + ps[3](c);
  }

  lemma ShortCaptureGathersNothing()
    ensures Gathered(Cleaned(["서울"])) == []
  {
    assert CleanAddress("서울") == "서울" by {
      assert NoMarkers("서울") && SingleSpaced("서울");
      TrimOfTrimmed("서울");
    }
    assert ["서울"][..0] == [];
    assert Cleaned(["서울"]) == ["서울"];
    assert Utf16Length("서울") == 2;
  }

  /** A labelled address too short to be one is dropped: "주소: 서울" yields
      nothing when the tag and general patterns find nothing in it. */
  lemma ShortLabelledAddressDropped(c: string, tag: Matcher, general: Matcher)
    requires c == "주소: 서울"
    requires tag(c) == [] && general(c) == []
    ensures AddressesOf(Some(c), AddressPatterns(tag, general)) == []
  {
    assert !IsAbsent(Some(c)) by {
      assert !IsJavaWhitespace(c[0]);
    }
    var ps := AddressPatterns(tag, general);
    AllCapturesOfFive(c, ps);
    assert ps[0](c) == ["서울"] by {
      LabelCaptureOfShortAddress();
    }
    assert ps[1](c) == [] && ps[2](c) == [] by {
      OtherLabelsAbsentFromShortAddress();
    }
    assert AllCaptures(c, ps) == ["서울"];
    ShortCaptureGathersNothing();
  }

  /** A blank caption yields no address, whatever the patterns. */
  lemma BlankCaptionNoAddresses(caption: string, patterns: seq<Matcher>)
    requires IsBlank(caption)
    ensures AddressesOf(Some(caption), patterns) == [] && AddressesOf(None, patterns) == []
  {
  }

  // ---------------------------------------------------------------------
  // Place-name extraction
  // ---------------------------------------------------------------------

  /** What one name pattern offers: its first match, cleaned, when that is
      an acceptable name; later matches are never looked at. */
  function NameFrom(caption: string, pattern: Matcher): Option<string> {
    var captures := pattern(caption);
    if |captures| > 0 && IsAcceptableName(CleanPlaceName(captures[0]))
    then Some(CleanPlaceName(captures[0]))
    else None
  }

  /** The index of the first value present, or `|offers|`. */
  function FirstPresent(offers: seq<Option<string>>): (k: nat)
    ensures k <= |offers|
    ensures forall j :: 0 <= j < k ==> offers[j].None?
    ensures k < |offers| ==> offers[k].Some?
  {
    if offers == [] then 0
    else if offers[0].Some? then 0
    else 1 + FirstPresent(offers[1..])
  }

  /** What each name pattern offers, pattern by pattern. */
  function Offers(caption: string, patterns: seq<Matcher>): (offers: seq<Option<string>>)
    ensures |offers| == |patterns|
    ensures forall k :: 0 <= k < |patterns| ==> offers[k] == NameFrom(caption, patterns[k])
  {
    seq(|patterns|, k requires 0 <= k < |patterns| => NameFrom(caption, patterns[k]))
  }

  /** What `extractPlaceName` returns for a non-blank caption. */
  function FirstName(caption: string, patterns: seq<Matcher>): Option<string> {
    var offers := Offers(caption, patterns);
    var k := FirstPresent(offers);
    if k < |offers| then offers[k] else None
  }

  /** The name found is the cleaned first match of the earliest pattern
      whose first match is acceptable; it is long enough and not a
      blacklisted word. */
  lemma FirstNameSpec(caption: string, patterns: seq<Matcher>)
    ensures var r := FirstName(caption, patterns);
      && (r.Some? ==> IsAcceptableName(r.value) && r.value !in Blacklist)
      && (r.None? <==> forall j :: 0 <= j < |patterns| ==> NameFrom(caption, patterns[j]).None?)
  {
    var r := FirstName(caption, patterns);
    if r.Some? {
      ValidPlaceNameIsNotBlacklisted(r.value);
    }
  }

  /** Two pattern lists whose first matches agree give the same name:
      only the first match of each pattern is ever considered. */
  lemma OnlyFirstMatchCounts(caption: string, ps: seq<Matcher>, qs: seq<Matcher>)
    requires |ps| == |qs|
    requires forall k :: 0 <= k < |ps| ==> (|ps[k](caption)| > 0 <==> |qs[k](caption)| > 0)
    requires forall k :: 0 <= k < |ps| && |ps[k](caption)| > 0 ==> ps[k](caption)[0] == qs[k](caption)[0]
    ensures FirstName(caption, ps) == FirstName(caption, qs)
  {
    forall k | 0 <= k < |ps|
      ensures NameFrom(caption, ps[k]) == NameFrom(caption, qs[k])
    {
    }
    assert Offers(caption, ps) == Offers(caption, qs);
  }

  /** One pattern's turn in `extractPlaceName`: its first match, cleaned,
      when that is an acceptable name. */
  method OfferedName(text: string, pattern: Matcher) returns (offer: Option<string>)
    ensures offer == NameFrom(text, pattern)
  {
    var captures := pattern(text);
    if |captures| > 0 {
      var placeName := CleanPlaceName(captures[0]);
      if Utf16Length(placeName) >= 2 && IsValidPlaceName(placeName) {
        return Some(placeName);
      }
    }
    return None;
  }

  /** `extractPlaceName`: the first acceptable first match, pattern by pattern. */
  method ExtractPlaceName(caption: Option<string>, patterns: seq<Matcher>) returns (name: Option<string>)
    ensures name == (if IsAbsent(caption) then None else FirstName(caption.value, patterns))
    ensures name.Some? ==> IsAcceptableName(name.value) && name.value !in Blacklist
  {
    if caption.None? || IsBlank(caption.value) {
      return None;
    }
    var text := caption.value;
    ghost var offers := Offers(text, patterns);
    FirstNameSpec(text, patterns);
    for k := 0 to |patterns|
      invariant forall j :: 0 <= j < k ==> offers[j].None?
    {
      var offer := OfferedName(text, patterns[k]);
      if offer.Some? {
        assert FirstPresent(offers) == k;
        return offer;
      }
    }
    assert FirstPresent(offers) == |offers|;
    return None;
  }
}
