/** Search highlighting of ui_tabs.c. A window is the sequence of cells written to it. */
module Highlight {
  import opened Basics

  /** One character written to the window, and whether the search attribute was on. */
  datatype Cell = Cell(ch: char, lit: bool)

  /** tolower in the C locale, the only one the program runs in. */
  function Lower(c: char): char {
    if 'A' <= c <= 'Z' then c - 'A' + 'a' else c
  }

  /** term occurs in text at position p, ignoring case. */
  predicate MatchAt(text: string, term: string, p: int) {
    0 <= p && p + |term| <= |text| &&
    forall k :: 0 <= k < |term| ==> Lower(text[p + k]) == Lower(term[k])
  }

  /** Two characters match exactly when they are the same or the two cases of one letter. */
  lemma LettersMatchIff(c: char, d: char)
    ensures Lower(c) == Lower(d) <==> SameLetter(c, d)
    ensures MatchAt([c], [d], 0) <==> SameLetter(c, d)
  {
    assert [c][0] == c && [d][0] == d;
  }

  /** And terms match where all their characters do. */
  lemma {:induction false} MatchAtIff(text: string, term: string, p: int)
    ensures MatchAt(text, term, p) <==> 0 <= p <= |text| - |term| && SameLetters(text[p..p + |term|], term)
  {
    if 0 <= p <= |text| - |term| {
      forall k | 0 <= k < |term|
        ensures Lower(text[p + k]) == Lower(term[k]) <==> SameLetter(text[p..p + |term|][k], term[k])
      {
        LettersMatchIff(text[p + k], term[k]);
      }
    }
    hide Lower, SameLetter;
  }

  /** r is the first place from from on where needle occurs. */
  ghost predicate FirstMatch(text: string, from: nat, needle: string, r: Option<nat>) {
    match r
    case Some(m) => from <= m && MatchAt(text, needle, m) && forall q :: from <= q < m ==> !MatchAt(text, needle, q)
    case None => forall q :: from <= q ==> !MatchAt(text, needle, q)
  }

  /** strcasestr_local on the suffix of text that begins at from. */
  method FindIgnoreCase(text: string, from: nat, needle: string) returns (r: Option<nat>)
    requires from <= |text|
    ensures FirstMatch(text, from, needle, r)
  {
    if needle == "" { return Some(from); }
    var h0 := from;
    while h0 < |text|
      invariant from <= h0 <= |text|
      invariant forall q :: from <= q < h0 ==> !MatchAt(text, needle, q)
    {
      var h, n := h0, 0;
      while h < |text| && n < |needle| && Lower(text[h]) == Lower(needle[n])
        invariant h == h0 + n && h <= |text| && n <= |needle|
        invariant forall k :: 0 <= k < n ==> Lower(text[h0 + k]) == Lower(needle[k])
      {
        h, n := h + 1, n + 1;
      }
      if n == |needle| { return Some(h0); }
      assert h0 + n < |text| ==> Lower(text[h0 + n]) != Lower(needle[n]);
      h0 := h0 + 1;
    }
    return None;
  }

  /** tabs_search_match; a NULL argument behaves as an empty one. */
  method SearchMatch(text: string, term: string) returns (found: bool)
    ensures found <==> term != "" && exists p :: MatchAt(text, term, p)
  {
    if term == "" { return false; }
    var r := FindIgnoreCase(text, 0, term);
    return r.Some?;
  }

  /** Declarative greedy choice: an occurrence is highlighted exactly when it overlaps no
      highlighted occurrence that starts before it. */
  ghost predicate Chosen(text: string, term: string, p: int)
    decreases p
  {
    MatchAt(text, term, p) &&
    forall q :: 0 <= q < p && Chosen(text, term, q) ==> q + |term| <= p
  }

  /** Cell i lies inside a chosen occurrence. */
  ghost predicate Lit(text: string, term: string, i: int) {
    exists q :: i - |term| < q <= i && Chosen(text, term, q)
  }

  /** The picture the window should show. */
  ghost function Cells(text: string, term: string): seq<Cell> {
    seq(|text|, i requires 0 <= i < |text| => Cell(text[i], Lit(text, term, i)))
  }

  /** tabs_draw_with_highlight: prints the whole text and lights exactly the chosen matches. */
  method DrawWithHighlight(text: string, term: string) returns (win: seq<Cell>)
    ensures win == Cells(text, term)
  {
    win := [];
    if term == "" {
      for i := 0 to |text|
        invariant |win| == i && win == Cells(text, term)[..i]
      {
        win := win + [Cell(text[i], false)];
      }
      return;
    }
    var p := 0;
    while p < |text|
      invariant 0 <= p <= |text| && |win| == p && win == Cells(text, term)[..p]
      invariant forall q :: q < p && Chosen(text, term, q) ==> q + |term| <= p
    {
      var m := FindIgnoreCase(text, p, term);
      if m.Some? {
        while p < m.value
          invariant p <= m.value && |win| == p && win == Cells(text, term)[..p]
          invariant forall q :: q < m.value && Chosen(text, term, q) ==> q + |term| <= p
        {
          win := win + [Cell(text[p], false)];
          p := p + 1;
        }
        assert Chosen(text, term, m.value);
        var i := 0;
        while i < |term| && p < |text|
          invariant p == m.value + i && i <= |term| && |win| == p && win == Cells(text, term)[..p]
        {
          assert Lit(text, term, p) by { assert p - |term| < m.value <= p; }
          win := win + [Cell(text[p], true)];
          i, p := i + 1, p + 1;
        }
      } else {
        for i := p to |text|
          invariant |win| == i && win == Cells(text, term)[..i]
        {
          win := win + [Cell(text[i], false)];
        }
        return;
      }
    }
  }

  function Chars(win: seq<Cell>): string {
    seq(|win|, i requires 0 <= i < |win| => win[i].ch)
  }

  /** Nothing is lost, added or reordered by highlighting. */
  lemma HighlightKeepsText(text: string, term: string)
    ensures Chars(Cells(text, term)) == text
  {
  }

  /** tabs_search_match answers exactly whether drawing would light something. */
  lemma SomethingLitIffMatch(text: string, term: string)
    ensures (exists i :: 0 <= i < |text| && Lit(text, term, i))
       <==> term != "" && exists p :: MatchAt(text, term, p)
  {
    if term != "" && exists p :: MatchAt(text, term, p) {
      var p :| MatchAt(text, term, p);
      var q := EarlierChosen(text, term, p);
      assert q - |term| < q <= q;
      assert Lit(text, term, q);
    }
    if i :| 0 <= i < |text| && Lit(text, term, i) {
      var q :| i - |term| < q <= i && Chosen(text, term, q);
    }
  }

  /** Every occurrence is chosen or meets a chosen one that starts no later: the highlighting
      is maximal. */
  lemma EarlierChosen(text: string, term: string, p: int) returns (q: int)
    requires MatchAt(text, term, p) && term != ""
    ensures Chosen(text, term, q) && p - |term| < q <= p
  {
    assert Chosen(text, term, p)
        || exists r :: 0 <= r < p && Chosen(text, term, r) && r + |term| > p;
    if Chosen(text, term, p) {
      q := p;
    } else {
      q :| 0 <= q < p && Chosen(text, term, q) && q + |term| > p;
    }
  }

  /** Chosen occurrences never overlap. */
  lemma ChosenDisjoint(text: string, term: string, p: int, q: int)
    requires Chosen(text, term, p) && Chosen(text, term, q) && p < q
    ensures p + |term| <= q
  {
  }

  /** Neither where a term is found nor the choice depends on the case of any letter in text or
      term. */
  lemma {:induction false} ChoiceIgnoresCase(text: string, text': string, term: string, term': string, p: int)
    requires SameLetters(text, text') && SameLetters(term, term')
    ensures MatchAt(text, term, p) == MatchAt(text', term', p)
    ensures Chosen(text, term, p) == Chosen(text', term', p)
    decreases p
  {
    forall i | 0 <= i < |text|
      ensures Lower(text[i]) == Lower(text'[i])
    {
      LettersMatchIff(text[i], text'[i]);
    }
    forall i | 0 <= i < |term|
      ensures Lower(term[i]) == Lower(term'[i])
    {
      LettersMatchIff(term[i], term'[i]);
    }
    hide Lower, SameLetter;
    assert MatchAt(text, term, p) == MatchAt(text', term', p);
    forall q | 0 <= q < p
      ensures Chosen(text, term, q) == Chosen(text', term', q)
    {
      ChoiceIgnoresCase(text, text', term, term', q);
    }
  }

  lemma {:induction false} FindIgnoresCase(text: string, text': string, term: string, term': string, from: nat,
                                           r: Option<nat>)
    requires SameLetters(text, text') && SameLetters(term, term')
    ensures FirstMatch(text, from, term, r) <==> FirstMatch(text', from, term', r)
  {
    forall q | from <= q
      ensures MatchAt(text, term, q) == MatchAt(text', term', q)
    {
      ChoiceIgnoresCase(text, text', term, term', q);
    }
    hide MatchAt;
  }

  // ---------------------------------------------------------------- the picture from left to right

  /** Text written with or without the search attribute. */
  function Drawn(text: string, lit: bool): seq<Cell> {
    seq(|text|, i requires 0 <= i < |text| => Cell(text[i], lit))
  }

  /** The picture, from left to right: the text before the first occurrence plain, the occurrence
      lit, and then the picture of the rest; without an occurrence all is plain. */
  lemma {:induction false} PictureFromLeft(text: string, term: string, r: Option<nat>)
    requires term != "" && FirstMatch(text, 0, term, r)
    ensures match r
      case None => Cells(text, term) == Drawn(text, false)
      case Some(m) =>
        var e := m + |term|;
        e <= |text| &&
        Cells(text, term) == Drawn(text[..m], false) + Drawn(text[m..e], true) + Cells(text[e..], term)
  {
    if r.Some? {
      var m, e := r.value, r.value + |term|;
      assert Chosen(text, term, m);
      forall i | 0 <= i < |text|
        ensures Lit(text, term, i) <==> m <= i && (i < e || Lit(text[e..], term, i - e))
      {
        LitFromLeft(text, term, m, i);
      }
      hide Chosen, Lit, MatchAt;
      var left := Drawn(text[..m], false) + Drawn(text[m..e], true);
      assert |left| == e;
      var win := left + Cells(text[e..], term);
      forall i | 0 <= i < |text|
        ensures Cells(text, term)[i] == win[i]
      {
        if i >= e {
          assert win[i] == Cells(text[e..], term)[i - e];
        }
      }
    }
  }

  lemma {:induction false} LitFromLeft(text: string, term: string, m: nat, i: nat)
    requires term != "" && FirstMatch(text, 0, term, Some(m)) && i < |text|
    ensures Chosen(text, term, m)
    ensures var e := m + |term|;
      e <= |text| && (Lit(text, term, i) <==> m <= i && (i < e || Lit(text[e..], term, i - e)))
  {
    var e := m + |term|;
    assert Chosen(text, term, m);
    forall q | 0 <= q <= |text| - e
      ensures Chosen(text, term, e + q) == Chosen(text[e..], term, q)
    {
      ChosenShifts(text, term, m, q);
    }
    hide MatchAt;
    if m <= i < e {
      assert i - |term| < m <= i && Chosen(text, term, m);
    }
    if q :| i - |term| < q <= i && Chosen(text, term, q) {
      OnlyOneUpTo(text, term, m, q);
      if q >= e {
        assert i - e - |term| < q - e <= i - e && Chosen(text[e..], term, q - e);
      }
    }
    if i >= e && Lit(text[e..], term, i - e) {
      var q :| i - e - |term| < q <= i - e && Chosen(text[e..], term, q);
      assert 0 <= q;
      assert i - |term| < e + q <= i && Chosen(text, term, e + q);
    }
  }

  /** Before the end of the first occurrence no other is chosen. */
  lemma OnlyOneUpTo(text: string, term: string, m: nat, q: int)
    requires FirstMatch(text, 0, term, Some(m)) && Chosen(text, term, q)
    ensures q == m || q >= m + |term|
  {
    assert Chosen(text, term, m);
  }

  lemma {:induction false} ChosenShifts(text: string, term: string, m: nat, q: nat)
    requires term != "" && FirstMatch(text, 0, term, Some(m)) && m + |term| + q <= |text|
    ensures var e := m + |term|;
      Chosen(text, term, e + q) == Chosen(text[e..], term, q)
    decreases q
  {
    var e := m + |term|;
    assert MatchAt(text, term, e + q) == MatchAt(text[e..], term, q) by {
      MatchShifts(text, term, e, q);
    }
    assert Chosen(text, term, m);
    forall r: nat | r < q
      ensures Chosen(text, term, e + r) == Chosen(text[e..], term, r)
    {
      ChosenShifts(text, term, m, r);
    }
    hide MatchAt;
    if Chosen(text[e..], term, q) {
      forall r | 0 <= r < e + q && Chosen(text, term, r)
        ensures r + |term| <= e + q
      {
        OnlyOneUpTo(text, term, m, r);
        if r >= e {
          assert Chosen(text[e..], term, r - e);
        }
      }
    }
    if Chosen(text, term, e + q) {
      forall r: int | 0 <= r < q && Chosen(text[e..], term, r)
        ensures r + |term| <= q
      {
        assert Chosen(text, term, e + r);
      }
    }
  }

  lemma MatchShifts(text: string, term: string, e: nat, q: nat)
    requires e <= |text|
    ensures MatchAt(text, term, e + q) == MatchAt(text[e..], term, q)
  {
    var rest := text[e..];
    assert forall i :: 0 <= i < |rest| ==> rest[i] == text[e + i];
    if MatchAt(text, term, e + q) {
      forall k | 0 <= k < |term|
        ensures Lower(rest[q + k]) == Lower(term[k])
      {
        assert rest[q + k] == text[e + q + k];
      }
    }
    if MatchAt(rest, term, q) {
      forall k | 0 <= k < |term|
        ensures Lower(text[e + q + k]) == Lower(term[k])
      {
        assert rest[q + k] == text[e + q + k];
      }
    }
  }

  /** Without a term nothing is lit. */
  lemma NoTermNoLight(text: string)
    ensures Cells(text, "") == Drawn(text, false)
  {
  }
}
