/**
 The mock body of `analyzeIssueWithAI` in `services/geminiService.ts`: a
 deterministic stand-in for an AI classifier. Category and priority are
 picked by the description's length in UTF-16 code units (JavaScript's
 `length`); the title is the description's first
 five space-separated pieces followed by "...". The image payload is accepted
 and ignored.
 */
module GeminiService {
  import opened Types

  datatype AIEnhancementResult = AIEnhancementResult(
    category: ReportCategory,
    priority: ReportPriority,
    title: string
  )

  // ---------------------------------------------------------------------
  // String helpers with JavaScript's meaning
  // ---------------------------------------------------------------------

  /** The number of space characters in `s`. */
  function SpaceCount(s: string): nat {
    multiset(s)[' ']
  }

  /** The position of the first space of a string that holds one. */
  function FirstSpace(s: string): (i: nat)
    requires ' ' in s
    ensures i < |s| && s[i] == ' '
    ensures ' ' !in s[..i]
  {
    if s[0] == ' ' then 0
    else
      assert ' ' in s[1..] by { assert s == [s[0]] + s[1..]; }
      var k := FirstSpace(s[1..]);
      assert s[..k + 1] == [s[0]] + s[1..][..k];
      k + 1
  }

  /** Splitting on the space character: the pieces between spaces. There
      is always at least one piece, and the empty string splits into one
      empty piece. */
  function Split(s: string): (pieces: seq<string>)
    ensures |pieces| >= 1
    decreases |s|
  {
    if ' ' !in s then [s]
    else
      var i := FirstSpace(s);
      [s[..i]] + Split(s[i + 1..])
  }

  /** The pieces joined with single spaces between them. */
  function Join(pieces: seq<string>): string {
    if |pieces| == 0 then ""
    else if |pieces| == 1 then pieces[0]
    else pieces[0] + " " + Join(pieces[1..])
  }

  /** The first `n` pieces, or all of them when there are fewer. */
  function Take<T>(pieces: seq<T>, n: nat): (r: seq<T>)
    ensures |r| == if n < |pieces| then n else |pieces|
    ensures r <= pieces
  {
    if n < |pieces| then pieces[..n] else pieces
  }

  /** Splitting and joining again gives back the original text. */
  lemma {:induction false} JoinSplit(s: string)
    ensures Join(Split(s)) == s
    decreases |s|
  {
    if ' ' in s {
      var i := FirstSpace(s);
      JoinSplit(s[i + 1..]);
      assert Split(s) == [s[..i]] + Split(s[i + 1..]);
      JoinCons(s[..i], Split(s[i + 1..]));
      assert s == s[..i] + " " + s[i + 1..];
    }
  }

  lemma SpaceCountConcat(a: string, b: string)
    ensures SpaceCount(a + b) == SpaceCount(a) + SpaceCount(b)
  {
    assert multiset(a + b) == multiset(a) + multiset(b);
  }

  lemma TakeCons<T>(h: T, rest: seq<T>, n: nat)
    requires n >= 1
    ensures Take([h] + rest, n) == [h] + Take(rest, n - 1)
  {
    if n - 1 < |rest| {
      assert ([h] + rest)[..n] == [h] + rest[..n - 1];
    }
  }

  lemma JoinCons(h: string, rest: seq<string>)
    requires |rest| >= 1
    ensures Join([h] + rest) == h + " " + Join(rest)
  {
    assert ([h] + rest)[1..] == rest;
  }

  /** Taking `n > 1` pieces of a text with a space: the first piece, then
      `n - 1` pieces of what follows the first space. */
  lemma JoinFirstPiecesStep(s: string, n: nat)
    requires ' ' in s && n >= 2
    ensures
      var i := FirstSpace(s);
      Join(Take(Split(s), n)) == s[..i] + " " + Join(Take(Split(s[i + 1..]), n - 1))
  {
    var i := FirstSpace(s);
    var tail := Split(s[i + 1..]);
    assert Split(s) == [s[..i]] + tail;
    TakeCons(s[..i], tail, n);
    JoinCons(s[..i], Take(tail, n - 1));
  }

  /** Text without a space holds no space. */
  lemma NoSpaceCount(s: string)
    requires ' ' !in s
    ensures SpaceCount(s) == 0
  {
    assert ' ' !in multiset(s);
  }

  /** `p` is the cut of `s` before its `(n + 1)`-th space: the prefix that
      stops right before a space and holds `n` spaces, or all of `s` when it
      holds no more than `n`. */
  predicate IsCut(s: string, p: string, n: nat) {
    && p <= s
    && ((|p| < |s| && s[|p|] == ' ' && SpaceCount(p) == n)
        || (p == s && SpaceCount(s) <= n))
  }

  /** Joining the first `n` pieces of a split gives the prefix of `s` that
      ends just before its `n`-th space, or all of `s` when it has fewer
      than `n` spaces. */
  lemma {:induction false} JoinFirstPieces(s: string, n: nat)
    requires n >= 1
    ensures IsCut(s, Join(Take(Split(s), n)), n - 1)
    decreases |s|
  {
    if ' ' !in s {
      JoinPiecesWithoutSpace(s, n);
    } else if n == 1 {
      JoinFirstPiece(s);
    } else {
      var i := FirstSpace(s);
      var q := Join(Take(Split(s[i + 1..]), n - 1));
      JoinFirstPieces(s[i + 1..], n - 1);
      JoinFirstPiecesStep(s, n);
      JoinFirstPiecesCombine(s, i, q, n);
    }
  }

  lemma JoinPiecesWithoutSpace(s: string, n: nat)
    requires n >= 1 && ' ' !in s
    ensures Join(Take(Split(s), n)) == s && SpaceCount(s) == 0
  {
    NoSpaceCount(s);
    assert Take(Split(s), n) == [s];
  }

  lemma JoinFirstPiece(s: string)
    requires ' ' in s
    ensures Join(Take(Split(s), 1)) == s[..FirstSpace(s)]
    ensures SpaceCount(s[..FirstSpace(s)]) == 0
  {
    var i := FirstSpace(s);
    var head, tail := s[..i], Split(s[i + 1..]);
    assert Split(s) == [head] + tail;
    TakeCons(head, tail, 1);
    assert Take(tail, 0) == [];
    assert Join([head]) == head;
    NoSpaceCount(head);
  }

  /** The inductive step of `JoinFirstPieces`: a cut of the text after the
      first space, prefixed by the first piece and that space, is a cut of
      the whole text with one more space. */
  lemma JoinFirstPiecesCombine(s: string, i: nat, q: string, n: nat)
    requires i < |s| && s[i] == ' ' && ' ' !in s[..i] && n >= 2
    requires IsCut(s[i + 1..], q, n - 2)
    ensures IsCut(s, s[..i] + " " + q, n - 1)
  {
    var head, rest := s[..i], s[i + 1..];
    var p := head + " " + q;
    assert s == head + " " + rest;
    NoSpaceCount(head);
    SpaceCountConcat(head, " ");
    SpaceCountConcat(head + " ", q);
    assert p == s[..|p|];
    if |q| < |rest| {
      assert s[|p|] == rest[|q|];
    } else {
      assert p == s;
    }
  }

  /** The cut is well defined: at most one prefix of a text stops right
      before a space while holding exactly `n` spaces. */
  lemma CutBeforeSpaceUnique(s: string, p1: string, p2: string, n: nat)
    requires IsCut(s, p1, n) && IsCut(s, p2, n)
    ensures p1 == p2
  {
    if |p1| < |p2| {
      assert p2 == p1 + [' '] + p2[|p1| + 1..];
      SpaceCountConcat(p1 + [' '], p2[|p1| + 1..]);
      SpaceCountConcat(p1, [' ']);
      assert false;
    } else if |p2| < |p1| {
      assert p1 == p2 + [' '] + p1[|p2| + 1..];
      SpaceCountConcat(p2 + [' '], p1[|p2| + 1..]);
      SpaceCountConcat(p2, [' ']);
      assert false;
    }
  }

  /** A text with no more than `n` spaces is its own cut. */
  lemma CutOfFewSpaces(s: string, p: string, n: nat)
    requires IsCut(s, p, n) && SpaceCount(s) <= n
    ensures p == s
  {
    if p != s {
      var after := s[|p| + 1..];
      assert s == (p + [' ']) + after;
      SpaceCountConcat(p + [' '], after);
      SpaceCountConcat(p, [' ']);
      assert false;
    }
  }

  // ---------------------------------------------------------------------
  // The mock analysis
  // ---------------------------------------------------------------------

  /** The title: the text up to (not including) the fifth space, followed
      by an ellipsis. */
  function MockTitle(description: string): (title: string)
    ensures |title| >= 3 && title[|title| - 3..] == "..."
    ensures IsCut(description, title[..|title| - 3], 4)
  {
    var p := Join(Take(Split(description), 5));
    JoinFirstPieces(description, 5);
    var title := p + "...";
    assert title[..|title| - 3] == p;
    title
  }

  /** The length JavaScript reports for a string: its count of UTF-16 code
      units. A character outside the Basic Multilingual Plane is stored as a
      surrogate pair and counts twice. */
  function Utf16Length(s: string): (n: nat)
    ensures |s| <= n <= 2 * |s|
  {
    if |s| == 0 then 0
    else (if s[0] as int < 0x1_0000 then 1 else 2) + Utf16Length(s[1..])
  }

  /** For text drawn from the Basic Multilingual Plane alone, the JavaScript
      length is the number of characters. */
  lemma {:induction false} Utf16LengthBmp(s: string)
    requires forall i | 0 <= i < |s| :: s[i] as int < 0x1_0000
    ensures Utf16Length(s) == |s|
  {
    if |s| > 0 {
      Utf16LengthBmp(s[1..]);
    }
  }

  /** JavaScript's length adds up over concatenation, so with the two
      single-character cases it fixes the length of every string. */
  lemma {:induction false} Utf16LengthConcat(a: string, b: string)
    ensures Utf16Length(a + b) == Utf16Length(a) + Utf16Length(b)
    decreases |a|
  {
    if |a| == 0 {
      assert a + b == b;
    } else {
      assert (a + b)[1..] == a[1..] + b;
      Utf16LengthConcat(a[1..], b);
    }
  }

  /** A single character inside the Basic Multilingual Plane has JavaScript
      length one. */
  lemma BmpCharacterCountsOnce(c: char)
    requires c as int < 0x1_0000
    ensures Utf16Length([c]) == 1
  {
    assert [c][1..] == [];
  }

  /** A single character outside the Basic Multilingual Plane has JavaScript
      length two. */
  lemma AstralCharacterCountsTwice(c: char)
    requires c as int >= 0x1_0000
    ensures Utf16Length([c]) == 2
  {
    assert [c][1..] == [];
  }

  /** The mock `analyzeIssueWithAI`: category and priority are the value
      lists indexed by the description's JavaScript length; the image is not
      looked at. */
  function AnalyzeIssueWithAI(description: string, imageBase64: Option<string>): (r: AIEnhancementResult)
    ensures CategoryIndex(r.category) == Utf16Length(description) % |CategoryValues|
    ensures PriorityIndex(r.priority) == Utf16Length(description) % |PriorityValues|
    ensures |r.title| >= 3 && r.title[|r.title| - 3..] == "..."
    ensures IsCut(description, r.title[..|r.title| - 3], 4)
  {
    var n := Utf16Length(description);
    var category := CategoryValues[n % |CategoryValues|];
    var priority := PriorityValues[n % |PriorityValues|];
    CategoryAt(n % |CategoryValues|);
    PriorityAt(n % |PriorityValues|);
    AIEnhancementResult(category, priority, MockTitle(description))
  }

  /** A description made of one character outside the Basic Multilingual
      Plane has JavaScript length two, so it is classified as trash of high
      priority, not by its single character. */
  lemma AstralDescription(c: char, image: Option<string>)
    requires c as int >= 0x1_0000
    ensures AnalyzeIssueWithAI([c], image).category == Trash
    ensures AnalyzeIssueWithAI([c], image).priority == High
  {
    AstralCharacterCountsTwice(c);
  }

  /** Because three divides six, the priority's position is the category's
      position taken modulo three. */
  lemma PriorityFollowsCategory(description: string, image: Option<string>)
    ensures
      var r := AnalyzeIssueWithAI(description, image);
      PriorityIndex(r.priority) == CategoryIndex(r.category) % 3
  {
    ModSixModThree(Utf16Length(description));
  }

  /** Taking a number mod 6 and then mod 3 is taking it mod 3. */
  lemma ModSixModThree(n: nat)
    ensures n % 6 % 3 == n % 3
  {
    var q, r := n / 6, n % 6;
    assert n == 3 * (2 * q) + r;
    if r < 3 {
      assert n % 3 == r;
    } else {
      assert n == 3 * (2 * q + 1) + (r - 3);
      assert n % 3 == r - 3;
    }
  }

  /** The result depends on the description alone. */
  lemma ImageIgnored(description: string, image1: Option<string>, image2: Option<string>)
    ensures AnalyzeIssueWithAI(description, image1) == AnalyzeIssueWithAI(description, image2)
  {
  }

  /** A description with at most four spaces becomes the whole title. */
  lemma ShortDescriptionTitle(description: string)
    requires SpaceCount(description) <= 4
    ensures MockTitle(description) == description + "..."
  {
    var t := MockTitle(description);
    CutOfFewSpaces(description, t[..|t| - 3], 4);
    assert t == t[..|t| - 3] + t[|t| - 3..];
  }

  /** An empty description is not rejected here: it yields a pothole of low
      priority titled "...". */
  lemma EmptyDescription(image: Option<string>)
    ensures AnalyzeIssueWithAI("", image) == AIEnhancementResult(Pothole, Low, "...")
  {
    var r := AnalyzeIssueWithAI("", image);
    assert Utf16Length("") == 0;
    assert r.category == CategoryValues[0] && r.priority == PriorityValues[0];
    assert Split("") == [""];
    assert Take([""], 5) == [""];
    assert Join([""]) == "";
    assert r.title == "" + "...";
  }
}
