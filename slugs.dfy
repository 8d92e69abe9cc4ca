/**
 * The album slug: `title.toLowerCase()`, then every maximal run of
 * characters outside `[a-z0-9]` replaced by one '-', then one leading and
 * one trailing '-' removed (`/^-|-$/g`).
 *
 * `Slug` follows that chain of replacements; `Words` and `Join` give an
 * independent description (the lower-cased title's maximal alphanumeric
 * runs, joined by '-'), and `SlugIsJoinedWords` proves the two agree.
 */
module Slugs {
  import opened Text

  predicate IsSlugChar(c: char) {
    'a' <= c <= 'z' || '0' <= c <= '9'
  }

  /** Length of the leading run of characters whose `IsSlugChar` equals `inside`. */
  function Span(s: string, inside: bool): (n: nat)
    ensures n <= |s|
    ensures forall i :: 0 <= i < n ==> IsSlugChar(s[i]) == inside
    ensures n < |s| ==> IsSlugChar(s[n]) != inside
  {
    if s == [] || IsSlugChar(s[0]) != inside then 0 else 1 + Span(s[1..], inside)
  }

  /** `replace(/[^a-z0-9]+/g, "-")`: each maximal run of other characters becomes one '-'. */
  function Collapse(s: string): string
    decreases |s|
  {
    if s == [] then []
    else if IsSlugChar(s[0]) then
      var n := Span(s, true);
      s[..n] + Collapse(s[n..])
    else
      "-" + Collapse(s[Span(s, false)..])
  }

  /** `replace(/^-|-$/g, "")`: one '-' off the front, then one off the back. */
  function TrimDashes(s: string): string {
    var front := if |s| > 0 && s[0] == '-' then s[1..] else s;
    if |front| > 0 && front[|front| - 1] == '-' then front[..|front| - 1] else front
  }

  function Slug(title: string): string {
    TrimDashes(Collapse(LowerAll(title)))
  }

  /** A non-empty run of slug characters. */
  predicate IsWord(w: string) {
    |w| > 0 && forall i :: 0 <= i < |w| ==> IsSlugChar(w[i])
  }

  /** Every element is a word. */
  predicate AllWords(ws: seq<string>) {
    forall k :: 0 <= k < |ws| ==> IsWord(ws[k])
  }

  /** The maximal runs of slug characters of `s`, in order. */
  function Words(s: string): seq<string>
    decreases |s|
  {
    if s == [] then []
    else if IsSlugChar(s[0]) then
      var n := Span(s, true);
      [s[..n]] + Words(s[n..])
    else
      Words(s[Span(s, false)..])
  }

  /** Every run `Words` finds is a non-empty run of letters and digits. */
  lemma {:induction false} WordsAreWords(s: string)
    ensures AllWords(Words(s))
    decreases |s|
  {
    if s != [] {
      if IsSlugChar(s[0]) {
        var n := Span(s, true);
        WordsAreWords(s[n..]);
        assert IsWord(s[..n]);
      } else {
        WordsAreWords(s[Span(s, false)..]);
      }
    }
  }

  /** No letter or digit anywhere in `s`. */
  predicate NoSlugChar(s: string) {
    forall i :: 0 <= i < |s| ==> !IsSlugChar(s[i])
  }

  /** `s` has no word exactly when it has no letter or digit. */
  lemma {:induction false} WordsEmptyIff(s: string)
    ensures Words(s) == [] <==> NoSlugChar(s)
    decreases |s|
  {
    if s != [] && !IsSlugChar(s[0]) {
      var n := Span(s, false);
      WordsEmptyIff(s[n..]);
      if NoSlugChar(s[n..]) {
        forall i | 0 <= i < |s|
          ensures !IsSlugChar(s[i])
        {
        }
      }
    }
  }

  /** The words separated by single dashes. */
  function Join(ws: seq<string>): string {
    if ws == [] then []
    else if |ws| == 1 then ws[0]
    else ws[0] + "-" + Join(ws[1..])
  }

  /** Joined words are empty only when there are none, and otherwise start and end inside a word. */
  lemma {:induction false} JoinEnds(ws: seq<string>)
    requires AllWords(ws)
    ensures ws == [] <==> Join(ws) == []
    ensures ws != [] ==> IsSlugChar(Join(ws)[0]) && IsSlugChar(Join(ws)[|Join(ws)| - 1])
  {
    if |ws| > 1 {
      assert IsWord(ws[0]);
      JoinEnds(ws[1..]);
    } else if |ws| == 1 {
      assert IsWord(ws[0]);
    }
  }

  /** Shape of a slug: only `[a-z0-9-]`, no dash at either end, no two dashes together. */
  predicate WellFormed(r: string) {
    && (forall i :: 0 <= i < |r| ==> IsSlugChar(r[i]) || r[i] == '-')
    && (|r| > 0 ==> r[0] != '-' && r[|r| - 1] != '-')
    && (forall i :: 0 <= i < |r| - 1 ==> r[i] == '-' ==> r[i + 1] != '-')
  }

  /** Joining words always gives a well-formed slug. */
  lemma {:induction false} JoinWellFormed(ws: seq<string>)
    requires AllWords(ws)
    ensures WellFormed(Join(ws))
  {
    if |ws| > 1 {
      JoinWellFormed(ws[1..]);
      JoinEnds(ws[1..]);
      var w, rest := ws[0], Join(ws[1..]);
      var r := w + "-" + rest;
      assert Join(ws) == r;
      forall i | 0 <= i < |r| - 1 && r[i] == '-'
        ensures r[i + 1] != '-'
      {
        if i == |w| {
          assert r[i + 1] == rest[0];
        } else {
          assert i > |w| && r[i] == rest[i - |w| - 1] && r[i + 1] == rest[i - |w|];
        }
      }
    }
  }

  /** A dash in front of `s` when it starts outside a word. */
  function Lead(s: string): string {
    if |s| > 0 && !IsSlugChar(s[0]) then "-" else ""
  }

  /** A dash behind `s` when it ends outside a word and has a word. */
  function Trail(s: string): string {
    if |s| > 0 && !IsSlugChar(s[|s| - 1]) && Words(s) != [] then "-" else ""
  }

  /** The shape of `Collapse(s)`: its joined words between `Lead` and `Trail`. */
  ghost predicate CollapseShaped(s: string) {
    Collapse(s) == Lead(s) + Join(Words(s)) + Trail(s)
  }

  /** `CollapseShape`, case: `s` starts with a word. */
  lemma CollapseShapeWord(s: string)
    requires s != [] && IsSlugChar(s[0])
    requires CollapseShaped(s[Span(s, true)..])
    ensures CollapseShaped(s)
  {
    var rest := s[Span(s, true)..];
    if rest == [] {
      CollapseShapeOneWord(s);
    } else if Words(rest) == [] {
      CollapseShapeWordThenGap(s);
    } else {
      CollapseShapeWordThenMore(s);
    }
  }

  lemma CollapseShapeOneWord(s: string)
    requires s != [] && IsSlugChar(s[0]) && Span(s, true) == |s|
    ensures CollapseShaped(s)
  {
    var w := s[..|s|];
    assert w == s;
    assert Collapse(s) == w + Collapse([]);
    assert Words(s) == [w] + Words([]);
    assert Trail(s) == "";
  }

  lemma CollapseShapeWordThenGap(s: string)
    requires s != [] && IsSlugChar(s[0]) && Span(s, true) < |s|
    requires Words(s[Span(s, true)..]) == []
    requires CollapseShaped(s[Span(s, true)..])
    ensures CollapseShaped(s)
  {
    var n := Span(s, true);
    var w, rest := s[..n], s[n..];
    UnfoldWord(s);
    GapOnly(rest);
    assert Trail(s) == "-" by {
      WordsEmptyIff(rest);
      assert rest[|rest| - 1] == s[|s| - 1];
    }
    assert Join(Words(s)) == w by {
      assert Words(s) == [w];
    }
    assert Lead(s) == "";
    DashAfter(Collapse(s), Collapse(rest), w);
  }

  /** Concatenation: a word and then only a dash. */
  lemma DashAfter(c: string, cr: string, w: string)
    requires c == w + cr && cr == "-"
    ensures c == "" + w + "-"
  {
    assert "" + w == w;
  }

  /** A non-empty text with no word collapses to a single dash. */
  lemma GapOnly(rest: string)
    requires rest != [] && !IsSlugChar(rest[0]) && Words(rest) == []
    requires CollapseShaped(rest)
    ensures Collapse(rest) == "-"
  {
    assert Lead(rest) == "-" && Trail(rest) == "" && Join(Words(rest)) == "";
  }

  lemma CollapseShapeWordThenMore(s: string)
    requires s != [] && IsSlugChar(s[0]) && Span(s, true) < |s|
    requires Words(s[Span(s, true)..]) != []
    requires CollapseShaped(s[Span(s, true)..])
    ensures CollapseShaped(s)
  {
    var n := Span(s, true);
    var w, rest := s[..n], s[n..];
    UnfoldWord(s);
    SameTrail(s, n);
    JoinCons(w, Words(rest));
    assert Lead(rest) == "-" && Lead(s) == "";
    WordBefore(Collapse(s), Collapse(rest), w, Join(Words(rest)), Trail(s));
  }

  /** Concatenation: a word and a dash before the rest. */
  lemma WordBefore(c: string, cr: string, w: string, j: string, t: string)
    requires c == w + cr && cr == "-" + j + t
    ensures c == "" + (w + "-" + j) + t
  {
    assert "" + (w + "-" + j) + t == w + ("-" + j + t);
  }

  /** One step of `Collapse` and `Words` over a leading word. */
  lemma UnfoldWord(s: string)
    requires s != [] && IsSlugChar(s[0])
    ensures Collapse(s) == s[..Span(s, true)] + Collapse(s[Span(s, true)..])
    ensures Words(s) == [s[..Span(s, true)]] + Words(s[Span(s, true)..])
  {
  }

  /** A text and a non-empty suffix of it with a word share their `Trail`. */
  lemma SameTrail(s: string, n: nat)
    requires n < |s| && Words(s[n..]) != [] && Words(s) != []
    ensures Trail(s) == Trail(s[n..])
  {
    assert s[n..][|s[n..]| - 1] == s[|s| - 1];
  }

  lemma JoinCons(w: string, ws: seq<string>)
    requires ws != []
    ensures Join([w] + ws) == w + "-" + Join(ws)
  {
    assert ([w] + ws)[1..] == ws;
  }

  /** `CollapseShape`, case: `s` starts outside a word. */
  lemma CollapseShapeGap(s: string)
    requires s != [] && !IsSlugChar(s[0])
    requires CollapseShaped(s[Span(s, false)..])
    ensures CollapseShaped(s)
  {
    if Span(s, false) == |s| {
      CollapseShapeAllGap(s);
    } else {
      CollapseShapeGapThenWord(s);
    }
  }

  lemma CollapseShapeAllGap(s: string)
    requires s != [] && !IsSlugChar(s[0]) && Span(s, false) == |s|
    ensures CollapseShaped(s)
  {
    UnfoldGap(s);
    assert s[|s|..] == [];
    assert Words(s) == [] && Trail(s) == "";
    assert Collapse(s) == "-";
  }

  lemma CollapseShapeGapThenWord(s: string)
    requires s != [] && !IsSlugChar(s[0]) && Span(s, false) < |s|
    requires CollapseShaped(s[Span(s, false)..])
    ensures CollapseShaped(s)
  {
    var n := Span(s, false);
    var rest := s[n..];
    UnfoldGap(s);
    assert Lead(rest) == "" by {
      assert IsSlugChar(rest[0]);
    }
    assert Trail(s) == Trail(rest) by {
      assert rest[|rest| - 1] == s[|s| - 1];
    }
    DashBefore(Collapse(s), Collapse(rest), Join(Words(s)), Trail(s));
  }

  /** Concatenation: a dash before an unled middle. */
  lemma DashBefore(c: string, cr: string, j: string, t: string)
    requires c == "-" + cr && cr == "" + j + t
    ensures c == "-" + j + t
  {
    assert "" + j == j;
  }

  /** One step of `Collapse` and `Words` over a leading gap. */
  lemma UnfoldGap(s: string)
    requires s != [] && !IsSlugChar(s[0])
    ensures Collapse(s) == "-" + Collapse(s[Span(s, false)..])
    ensures Words(s) == Words(s[Span(s, false)..])
  {
  }

  lemma {:induction false} CollapseShape(s: string)
    ensures CollapseShaped(s)
    decreases |s|
  {
    if s == [] {
    } else if IsSlugChar(s[0]) {
      CollapseShape(s[Span(s, true)..]);
      CollapseShapeWord(s);
    } else {
      CollapseShape(s[Span(s, false)..]);
      CollapseShapeGap(s);
    }
  }

  /** Trimming removes exactly the dashes around a dash-free-ended middle. */
  lemma TrimAround(lead: string, j: string, trail: string)
    requires lead == "" || lead == "-"
    requires trail == "" || trail == "-"
    requires j == [] ==> trail == ""
    requires j != [] ==> j[0] != '-' && j[|j| - 1] != '-'
    ensures TrimDashes(lead + j + trail) == j
  {
    var s := lead + j + trail;
    var front := if |s| > 0 && s[0] == '-' then s[1..] else s;
    assert front == j + trail;
    if trail == "-" {
      assert front[..|front| - 1] == j;
    }
  }

  /** The slug is the lower-cased title's alphanumeric runs joined by '-'. */
  lemma SlugIsJoinedWords(title: string)
    ensures Slug(title) == Join(Words(LowerAll(title)))
  {
    var s := LowerAll(title);
    CollapseShape(s);
    WordsAreWords(s);
    JoinEnds(Words(s));
    TrimAround(Lead(s), Join(Words(s)), Trail(s));
  }

  /** Every slug has the slug shape. */
  lemma SlugWellFormed(title: string)
    ensures WellFormed(Slug(title))
  {
    SlugIsJoinedWords(title);
    WordsAreWords(LowerAll(title));
    JoinWellFormed(Words(LowerAll(title)));
  }

  /** Reading the words back out of joined words gives the same words. */
  lemma {:induction false} WordsOfJoin(ws: seq<string>)
    requires AllWords(ws)
    ensures Words(Join(ws)) == ws
  {
    if ws == [] {
    } else if |ws| == 1 {
      var w := ws[0];
      assert Span(w, true) == |w|;
      assert w[..|w|] == w && w[|w|..] == [];
      assert Words(w) == [w] + Words([]);
    } else {
      var w, rest := ws[0], Join(ws[1..]);
      var s := w + "-" + rest;
      assert Join(ws) == s;
      assert Span(s, true) == |w| by {
        assert !IsSlugChar(s[|w|]);
      }
      assert s[..|w|] == w;
      JoinEnds(ws[1..]);
      var tail := s[|w|..];
      assert tail == "-" + rest;
      assert Span(tail, false) == 1 by {
        assert IsSlugChar(tail[1]);
      }
      assert tail[1..] == rest;
      WordsOfJoin(ws[1..]);
    }
  }

  /** Deriving a slug from a slug changes nothing. */
  lemma SlugIdempotent(title: string)
    ensures Slug(Slug(title)) == Slug(title)
  {
    var r := Slug(title);
    SlugWellFormed(title);
    LowerAllFixes(r);
    SlugIsJoinedWords(title);
    SlugIsJoinedWords(r);
    WordsAreWords(LowerAll(title));
    WordsOfJoin(Words(LowerAll(title)));
  }

  /** The slug is empty exactly when the title has no ASCII letter or digit. */
  lemma SlugEmptyIff(title: string)
    ensures Slug(title) == [] <==> forall i :: 0 <= i < |title| ==> !IsSlugChar(Lower(title[i]))
  {
    SlugIsJoinedWords(title);
    WordsEmptyIff(LowerAll(title));
  }
}
