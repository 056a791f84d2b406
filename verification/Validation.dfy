/** Input rules (backend/internal/validation/validation.go), on text already
    decoded to characters. */
module Validation {
  import opened Common

  const QUESTION_MIN := 3
  const QUESTION_MAX := 300
  const OPTION_MAX := 120
  const MIN_OPTIONS := 2
  const MAX_OPTIONS := 10

  // ---- CleanText -------------------------------------------------------------------

  predicate IsControl(c: char) {
    c < ' ' || '\U{7F}' <= c <= '\U{9F}'
  }

  predicate IsSpace(c: char) {
    || c == ' ' || '\t' <= c <= '\r' || c == '\U{85}' || c == '\U{A0}' || c == '\U{1680}'
    || '\U{2000}' <= c <= '\U{200A}' || c == '\U{2028}' || c == '\U{2029}' || c == '\U{202F}'
    || c == '\U{205F}' || c == '\U{3000}'
  }

  predicate IsDropped(c: char) {
    c != '\n' && c != '\t' && (IsControl(c) || c == '\U{FEFF}' || c == '\U{200B}')
  }

  function StripOne(c: char): string {
    if c == '\n' || c == '\t' then [' '] else if IsDropped(c) then [] else [c]
  }

  function Strip(s: string): string {
    if |s| == 0 then [] else StripOne(s[0]) + Strip(s[1..])
  }

  function WordLength(s: string): (n: nat)
    ensures n <= |s|
    ensures forall i :: 0 <= i < n ==> !IsSpace(s[i])
    ensures n < |s| ==> IsSpace(s[n])
  {
    if |s| == 0 || IsSpace(s[0]) then 0 else 1 + WordLength(s[1..])
  }

  /** The maximal runs of non-space characters, in order. */
  function Fields(s: string): seq<string>
    decreases |s|
  {
    if |s| == 0 then []
    else if IsSpace(s[0]) then Fields(s[1..])
    else [s[..WordLength(s)]] + Fields(s[WordLength(s)..])
  }

  function Join(words: seq<string>): string {
    if |words| == 0 then [] else if |words| == 1 then words[0] else words[0] + [' '] + Join(words[1..])
  }

  function CleanText(s: string): string {
    Join(Fields(Strip(s)))
  }

  /** What a cleaned text looks like: no control character, byte-order mark or zero-width
      space, and spaces only singly, inside, and plain.  Other characters that show
      nothing, a word joiner say, may be there. */
  ghost predicate IsClean(t: string) {
    && (forall i :: 0 <= i < |t| ==> !IsControl(t[i]) && t[i] != '\U{FEFF}' && t[i] != '\U{200B}')
    && SinglySpaced(t)
  }

  ghost predicate SinglySpaced(t: string) {
    forall i {:trigger LoneSpace(t, i)} :: 0 <= i < |t| && IsSpace(t[i]) ==> LoneSpace(t, i)
  }

  predicate LoneSpace(t: string, i: nat)
    requires i < |t|
  {
    t[i] == ' ' && 0 < i < |t| - 1 && !IsSpace(t[i - 1]) && !IsSpace(t[i + 1])
  }

  ghost predicate IsWord(w: string) {
    && |w| > 0
    && forall i :: 0 <= i < |w| ==> !IsSpace(w[i]) && !IsControl(w[i]) && w[i] != '\U{FEFF}' && w[i] != '\U{200B}'
  }

  ghost predicate AreWords(ws: seq<string>) {
    forall i :: 0 <= i < |ws| ==> IsWord(ws[i])
  }

  lemma {:induction false} StripVisible(s: string)
    ensures forall i :: 0 <= i < |Strip(s)| ==>
      !IsControl(Strip(s)[i]) && Strip(s)[i] != '\U{FEFF}' && Strip(s)[i] != '\U{200B}'
  {
    if |s| > 0 {
      StripVisible(s[1..]);
    }
  }

  lemma {:induction false} FieldsAreWords(s: string)
    requires forall i :: 0 <= i < |s| ==> !IsControl(s[i]) && s[i] != '\U{FEFF}' && s[i] != '\U{200B}'
    ensures AreWords(Fields(s))
    decreases |s|
  {
    if |s| > 0 {
      if IsSpace(s[0]) {
        FieldsAreWords(s[1..]);
      } else {
        FieldsAreWords(s[WordLength(s)..]);
      }
    }
  }

  lemma {:induction false} WordLengthOf(w: string, rest: string)
    requires IsWord(w) && (rest == [] || IsSpace(rest[0]))
    ensures WordLength(w + rest) == |w|
  {
    if |w| == 1 {
      assert (w + rest)[1..] == rest;
    } else {
      WordLengthOf(w[1..], rest);
      assert (w + rest)[1..] == w[1..] + rest;
    }
  }

  /** Splitting a joined word list gives the words back. */
  lemma {:induction false} FieldsOfJoin(ws: seq<string>)
    requires AreWords(ws)
    ensures Fields(Join(ws)) == ws
  {
    if |ws| > 0 {
      var w, rest := ws[0], if |ws| == 1 then [] else [' '] + Join(ws[1..]);
      assert Join(ws) == w + rest;
      WordLengthOf(w, rest);
      assert (w + rest)[..|w|] == w && (w + rest)[|w|..] == rest;
      assert !IsSpace((w + rest)[0]);
      if |ws| > 1 {
        FieldsOfJoin(ws[1..]);
        assert rest[1..] == Join(ws[1..]);
      }
    }
  }

  lemma {:induction false} JoinIsClean(ws: seq<string>)
    requires AreWords(ws)
    ensures IsClean(Join(ws))
    ensures |ws| > 0 ==> |Join(ws)| > 0 && !IsSpace(Join(ws)[0])
  {
    if |ws| > 1 {
      JoinIsClean(ws[1..]);
      var w, t := ws[0], Join(ws[1..]);
      assert Join(ws) == w + [' '] + t;
      forall i | 0 <= i < |Join(ws)| && IsSpace(Join(ws)[i])
        ensures LoneSpace(Join(ws), i)
      {
        if i > |w| {
          assert Join(ws)[i] == t[i - |w| - 1];
          assert LoneSpace(t, i - |w| - 1);
        }
      }
    }
  }

  lemma {:induction false} StripNothing(t: string)
    requires forall i :: 0 <= i < |t| ==> !IsControl(t[i]) && t[i] != '\U{FEFF}' && t[i] != '\U{200B}'
    ensures Strip(t) == t
  {
    if |t| > 0 {
      StripNothing(t[1..]);
    }
  }

  lemma SinglySpacedRest(t: string, n: nat)
    requires SinglySpaced(t) && n < |t| && IsSpace(t[n])
    ensures t[n] == ' ' && 0 < |t[n + 1..]| && !IsSpace(t[n + 1]) && SinglySpaced(t[n + 1..])
  {
    var rest := t[n + 1..];
    assert LoneSpace(t, n);
    forall i | 0 <= i < |rest| && IsSpace(rest[i]) ensures LoneSpace(rest, i) {
      assert LoneSpace(t, n + 1 + i);
    }
  }

  lemma FieldsOfFirstWord(t: string, n: nat)
    requires |t| > 0 && !IsSpace(t[0]) && n == WordLength(t) && n < |t|
    ensures Fields(t) == [t[..n]] + Fields(t[n + 1..])
  {
    assert t[n..][1..] == t[n + 1..];
  }

  lemma JoinOfFirstWord(w: string, ws: seq<string>)
    requires |ws| > 0
    ensures Join([w] + ws) == w + [' '] + Join(ws)
  {
    assert ([w] + ws)[1..] == ws;
  }

  lemma FieldsOfOneWord(t: string)
    requires |t| > 0 && !IsSpace(t[0]) && WordLength(t) == |t|
    ensures Fields(t) == [t] && Join([t]) == t
  {
    assert t[..|t|] == t && t[|t|..] == [];
  }

  lemma StartsWithAWord(t: string)
    requires SinglySpaced(t) && |t| > 0
    ensures !IsSpace(t[0])
  {
    assert !LoneSpace(t, 0);
  }

  /** A singly spaced text is its words, joined again. */
  lemma {:induction false} SinglySpacedIsJoin(t: string)
    requires SinglySpaced(t)
    ensures t == Join(Fields(t)) && (Fields(t) == [] <==> t == "")
    decreases |t|
  {
    if |t| > 0 {
      StartsWithAWord(t);
      var n := WordLength(t);
      if n < |t| {
        var rest := t[n + 1..];
        SinglySpacedRest(t, n);
        SinglySpacedIsJoin(rest);
        FieldsOfFirstWord(t, n);
        JoinOfFirstWord(t[..n], Fields(rest));
        CutAtSpace(t, n);
      } else {
        FieldsOfOneWord(t);
      }
    }
  }

  lemma CutAtSpace(t: string, n: nat)
    requires n < |t| && t[n] == ' '
    ensures t == t[..n] + [' '] + t[n + 1..]
  {}

  /** CleanText lands in the clean texts and leaves exactly those alone. */
  lemma CleanTextFixesExactlyTheClean(s: string)
    ensures IsClean(CleanText(s))
    ensures CleanText(s) == s <==> IsClean(s)
  {
    StripVisible(s);
    FieldsAreWords(Strip(s));
    JoinIsClean(Fields(Strip(s)));
    if IsClean(s) {
      StripNothing(s);
      SinglySpacedIsJoin(s);
    }
  }

  lemma CleanTextIdempotent(s: string)
    ensures CleanText(CleanText(s)) == CleanText(s)
  {
    CleanTextFixesExactlyTheClean(s);
    CleanTextFixesExactlyTheClean(CleanText(s));
  }

  // ---- What cleaning sees ---------------------------------------------------------------

  /** Characters that survive cleaning. */
  predicate Survives(c: char) {
    !IsSpace(c) && !IsDropped(c)
  }

  ghost predicate HasSurvivor(s: string) {
    exists c :: c in s && Survives(c)
  }

  lemma {:induction false} StripKeepsSurvivors(s: string)
    ensures HasSurvivor(s) <==> exists c :: c in Strip(s) && !IsSpace(c)
  {
    if |s| > 0 {
      StripKeepsSurvivors(s[1..]);
      var c, rest := s[0], s[1..];
      assert s == [c] + rest;
      if HasSurvivor(s) {
        var x :| x in s && Survives(x);
        assert x == c || x in rest;
        if x == c {
          assert c in Strip(s) && !IsSpace(c);
        }
      }
      if exists x :: x in Strip(s) && !IsSpace(x) {
        var x :| x in Strip(s) && !IsSpace(x);
        assert x in Strip(rest) || (x == c && Survives(c));
      }
    }
  }

  lemma {:induction false} FieldsOfSpaces(s: string)
    ensures Fields(s) == [] <==> forall c :: c in s ==> IsSpace(c)
    decreases |s|
  {
    if |s| > 0 {
      assert s == [s[0]] + s[1..];
      if IsSpace(s[0]) {
        FieldsOfSpaces(s[1..]);
      } else {
        assert s[0] in s;
      }
    }
  }

  /** A text is blank after cleaning if and only if it has nothing but spaces and dropped
      characters. */
  lemma BlankIff(s: string)
    ensures CleanText(s) != "" <==> HasSurvivor(s)
  {
    StripKeepsSurvivors(s);
    FieldsOfSpaces(Strip(s));
    StripVisible(s);
    FieldsAreWords(Strip(s));
    JoinIsClean(Fields(Strip(s)));
  }

  function Flat(f: char -> string, s: string): string {
    if |s| == 0 then [] else f(s[0]) + Flat(f, s[1..])
  }

  lemma {:induction false} FlatConcat(f: char -> string, a: string, b: string)
    ensures Flat(f, a + b) == Flat(f, a) + Flat(f, b)
  {
    if a == [] {
      assert a + b == b;
    } else {
      FlatConcat(f, a[1..], b);
      assert (a + b)[1..] == a[1..] + b;
      assert Flat(f, a + b) == f(a[0]) + (Flat(f, a[1..]) + Flat(f, b));
    }
  }

  lemma {:induction false} StripIsFlat(s: string)
    ensures Strip(s) == Flat(StripOne, s)
  {
    if |s| > 0 {
      StripIsFlat(s[1..]);
    }
  }

  lemma StripConcat(a: string, b: string)
    ensures Strip(a + b) == Strip(a) + Strip(b)
  {
    StripIsFlat(a + b);
    StripIsFlat(a);
    StripIsFlat(b);
    FlatConcat(StripOne, a, b);
  }

  /** Putting the character into a text, anywhere, never changes what it is cleaned to. */
  ghost predicate MakesNoDifference(c: char) {
    forall a: string, b: string :: CleanText(a + [c] + b) == CleanText(a + b)
  }

  lemma SurvivorsPass(s: string)
    requires forall c :: c in s ==> Survives(c)
    ensures CleanText(s) == s
  {
    forall i | 0 <= i < |s| ensures Survives(s[i]) {
      assert s[i] in s;
    }
    assert IsClean(s);
    CleanTextFixesExactlyTheClean(s);
  }

  lemma WordLengthBefore(s: string, d: char, t: string)
    requires IsSpace(d)
    ensures WordLength(s + ([d] + t)) == WordLength(s)
  {
    if |s| == 0 {
      assert s + ([d] + t) == [d] + t;
    } else if !IsSpace(s[0]) {
      WordLengthBefore(s[1..], d, t);
      assert (s + ([d] + t))[1..] == s[1..] + ([d] + t);
    }
  }

  lemma {:induction false} FieldsAroundSpace(s: string, d: char, t: string)
    requires IsSpace(d)
    ensures Fields(s + ([d] + t)) == Fields(s) + Fields(t)
    decreases |s|
  {
    var whole := s + ([d] + t);
    if |s| == 0 {
      assert whole == [d] + t && whole[1..] == t;
    } else if IsSpace(s[0]) {
      assert whole[1..] == s[1..] + ([d] + t);
      FieldsAroundSpace(s[1..], d, t);
    } else {
      var n := WordLength(s);
      WordLengthBefore(s, d, t);
      assert whole[..n] == s[..n] && whole[n..] == s[n..] + ([d] + t);
      FieldsAroundSpace(s[n..], d, t);
      assert Fields(whole) == [s[..n]] + (Fields(s[n..]) + Fields(t));
    }
  }

  lemma {:induction false} JoinOfTwo(ws: seq<string>, us: seq<string>)
    requires |ws| > 0 && |us| > 0
    ensures Join(ws + us) == Join(ws) + [' '] + Join(us)
  {
    if |ws| == 1 {
      assert ws + us == [ws[0]] + us;
      JoinOfFirstWord(ws[0], us);
    } else {
      assert ws + us == [ws[0]] + (ws[1..] + us);
      assert ws == [ws[0]] + ws[1..];
      JoinOfFirstWord(ws[0], ws[1..] + us);
      JoinOfFirstWord(ws[0], ws[1..]);
      JoinOfTwo(ws[1..], us);
      Reassociate(ws[0], Join(ws[1..]), Join(us));
    }
  }

  lemma Reassociate(a: string, b: string, c: string)
    ensures a + [' '] + (b + [' '] + c) == a + [' '] + b + [' '] + c
  {}

  /** A space anywhere separates: what is before it and what is after it are cleaned by
      themselves and joined by one plain space, or stand alone if the other is blank.
      With DroppedIffNoDifference and SurvivorsPass this says what any text is cleaned to. */
  lemma SpaceSeparates(a: string, c: char, b: string)
    requires IsSpace(c) && !IsDropped(c)
    ensures CleanText(a + [c] + b) ==
      if !HasSurvivor(a) then CleanText(b) else if !HasSurvivor(b) then CleanText(a)
      else CleanText(a) + " " + CleanText(b)
  {
    var d := if c == '\n' || c == '\t' then ' ' else c;
    StripConcat(a + [c], b);
    StripConcat(a, [c]);
    assert Strip([c]) == [d];
    assert Strip(a) + [d] + Strip(b) == Strip(a) + ([d] + Strip(b));
    FieldsAroundSpace(Strip(a), d, Strip(b));
    BlankMeansNoWords(a);
    BlankMeansNoWords(b);
    var x, y := Fields(Strip(a)), Fields(Strip(b));
    if x == [] {
      assert x + y == y;
    } else if y == [] {
      assert x + y == x;
    } else {
      JoinOfTwo(x, y);
    }
  }

  lemma BlankMeansNoWords(s: string)
    ensures HasSurvivor(s) <==> Fields(Strip(s)) != []
  {
    StripKeepsSurvivors(s);
    FieldsOfSpaces(Strip(s));
  }

  lemma FieldsOfTwo(d: char)
    requires IsSpace(d)
    ensures Fields("x" + [d] + "y") == ["x", "y"]
  {
    WordLengthOf("x", [d] + "y");
    assert "x" + ([d] + "y") == "x" + [d] + "y";
    assert ("x" + [d] + "y")[..1] == "x" && ("x" + [d] + "y")[1..] == [d] + "y";
    assert ([d] + "y")[1..] == "y";
    WordLengthOf("y", "");
    assert "y" + "" == "y" && "y"[..1] == "y" && "y"[1..] == "";
    assert Fields("y") == ["y"] && Fields([d] + "y") == ["y"];
    assert Fields("x" + [d] + "y") == ["x"] + ["y"];
  }

  lemma CleanedSpace(c: char)
    requires IsSpace(c) && !IsDropped(c)
    ensures CleanText("x" + [c] + "y") == "x y"
  {
    var d := if c == '\n' || c == '\t' then ' ' else c;
    assert Strip("x" + [c] + "y") == "x" + [d] + "y" by {
      StripConcat("x" + [c], "y");
      StripConcat("x", [c]);
    }
    FieldsOfTwo(d);
    assert ["x", "y"][1..] == ["y"];
    assert "x" + [' '] + "y" == "x y";
  }

  /** The impersonation that cleaning is there to stop is stopped for exactly the dropped
      characters: only they leave a text as it was. */
  lemma DroppedIffNoDifference(c: char)
    ensures IsDropped(c) <==> MakesNoDifference(c)
  {
    if IsDropped(c) {
      forall a: string, b: string ensures CleanText(a + [c] + b) == CleanText(a + b) {
        StripConcat(a, [c]);
        StripConcat(a + [c], b);
        StripConcat(a, b);
        assert Strip([c]) == [] && Strip(a) + [] == Strip(a);
      }
    } else {
      SurvivorsPass("xy");
      if IsSpace(c) {
        CleanedSpace(c);
      } else {
        SurvivorsPass("x" + [c] + "y");
      }
      assert "x" + "y" == "xy";
      assert CleanText("x" + [c] + "y") != CleanText("x" + "y");
    }
  }

  // ---- Option labels ------------------------------------------------------------------

  datatype Problem =
    | QuestionMissing | QuestionTooShort | QuestionTooLong
    | TooFewOptions | TooManyOptions | OptionTooLong | OptionsNotDifferent
    | ExpiryNotInFuture | ExpiryTooFarAhead

  /** The lower-casing of strings.ToLower, of which only being a function is used. */
  type Folding = string -> string

  function Cleaned(values: seq<string>): seq<string> {
    if |values| == 0 then []
    else
      var clean := CleanText(values[|values| - 1]);
      Cleaned(values[..|values| - 1]) + (if clean == "" then [] else [clean])
  }

  predicate Repeats(labels: seq<string>, i: nat, lower: Folding)
    requires i < |labels|
  {
    exists j :: 0 <= j < i && lower(labels[j]) == lower(labels[i])
  }

  /** The complaint of the first label, in order, that is too long or repeats an
      earlier one. */
  function ScanProblem(labels: seq<string>, lower: Folding): Option<Problem> {
    if |labels| == 0 then None
    else
      var earlier := ScanProblem(labels[..|labels| - 1], lower);
      if earlier.Some? then earlier
      else if |labels[|labels| - 1]| > OPTION_MAX then Some(OptionTooLong)
      else if Repeats(labels, |labels| - 1, lower) then Some(OptionsNotDifferent)
      else None
  }

  function OptionsProblem(labels: seq<string>, lower: Folding): Option<Problem> {
    if |labels| < MIN_OPTIONS then Some(TooFewOptions)
    else if |labels| > MAX_OPTIONS then Some(TooManyOptions)
    else ScanProblem(labels, lower)
  }

  ghost predicate AcceptableLabels(labels: seq<string>, lower: Folding) {
    && MIN_OPTIONS <= |labels| <= MAX_OPTIONS
    && (forall i :: 0 <= i < |labels| ==> 0 < |labels[i]| <= OPTION_MAX && IsClean(labels[i]))
    && (forall i, j :: 0 <= i < j < |labels| ==> lower(labels[i]) != lower(labels[j]))
  }

  lemma {:induction false} ScanFindsTheFirst(labels: seq<string>, lower: Folding, n: nat)
    requires n <= |labels|
    ensures ScanProblem(labels[..n], lower).Some? ==> ScanProblem(labels, lower) == ScanProblem(labels[..n], lower)
    ensures ScanProblem(labels, lower).None? <==>
      (forall i :: 0 <= i < |labels| ==> |labels[i]| <= OPTION_MAX && !Repeats(labels, i, lower))
    decreases |labels|
  {
    if |labels| == 0 {
      assert labels[..n] == labels;
    } else {
      var front := labels[..|labels| - 1];
      forall i | 0 <= i < |front| ensures Repeats(labels, i, lower) <==> Repeats(front, i, lower) {
        if Repeats(labels, i, lower) {
          var j :| 0 <= j < i && lower(labels[j]) == lower(labels[i]);
          assert front[j] == labels[j] && front[i] == labels[i];
        }
        if Repeats(front, i, lower) {
          var j :| 0 <= j < i && lower(front[j]) == lower(front[i]);
          assert front[j] == labels[j] && front[i] == labels[i];
        }
      }
      ScanFindsTheFirst(front, lower, if n == |labels| then n - 1 else n);
      if n == |labels| {
        assert labels[..n] == labels;
      } else {
        assert front[..n] == labels[..n];
      }
    }
  }

  lemma {:induction false} CleanedIsClean(values: seq<string>)
    ensures |Cleaned(values)| <= |values|
    ensures forall i :: 0 <= i < |Cleaned(values)| ==> |Cleaned(values)[i]| > 0 && IsClean(Cleaned(values)[i])
  {
    if |values| > 0 {
      CleanedIsClean(values[..|values| - 1]);
      CleanTextFixesExactlyTheClean(values[|values| - 1]);
    }
  }

  lemma CleanedAppend(values: seq<string>, value: string)
    ensures Cleaned(values + [value]) == Cleaned(values) + (if CleanText(value) == "" then [] else [CleanText(value)])
  {
    assert (values + [value])[..|values|] == values;
  }

  lemma {:induction false} CleanedTwice(labels: seq<string>)
    requires forall i :: 0 <= i < |labels| ==> |labels[i]| > 0 && CleanText(labels[i]) == labels[i]
    ensures Cleaned(labels) == labels
  {
    if |labels| > 0 {
      var front, last := labels[..|labels| - 1], labels[|labels| - 1];
      CleanedTwice(front);
      CleanedAppend(front, last);
      assert labels == front + [last];
    }
  }

  /** The labels that are kept are kept unchanged when they are sent again. */
  lemma CleanedLabelsComeBack(values: seq<string>)
    ensures Cleaned(Cleaned(values)) == Cleaned(values)
  {
    var labels := Cleaned(values);
    CleanedIsClean(values);
    forall i | 0 <= i < |labels| ensures CleanText(labels[i]) == labels[i] {
      CleanTextFixesExactlyTheClean(labels[i]);
    }
    CleanedTwice(labels);
  }

  lemma NoRepeatIffDistinct(labels: seq<string>, lower: Folding)
    ensures (forall j :: 0 <= j < |labels| ==> !Repeats(labels, j, lower))
       <==> (forall i, j :: 0 <= i < j < |labels| ==> lower(labels[i]) != lower(labels[j]))
  {
    forall i, j | 0 <= i < j < |labels| && !Repeats(labels, j, lower) ensures lower(labels[i]) != lower(labels[j]) {}
  }

  /** Accepted iff the non-blank cleaned labels are two to ten, short enough and
      pairwise different when lower-cased. */
  lemma OptionsAcceptedIff(values: seq<string>, lower: Folding)
    ensures OptionsProblem(Cleaned(values), lower).None? <==> AcceptableLabels(Cleaned(values), lower)
  {
    CleanedIsClean(values);
    ScanFindsTheFirst(Cleaned(values), lower, 0);
    NoRepeatIffDistinct(Cleaned(values), lower);
  }

  function QuestionProblem(clean: string): Option<Problem> {
    if clean == "" then Some(QuestionMissing)
    else if |clean| < QUESTION_MIN then Some(QuestionTooShort)
    else if |clean| > QUESTION_MAX then Some(QuestionTooLong)
    else None
  }

  const WORD_JOINER := '\U{2060}'
  const ZERO_WIDTH_JOINER := '\U{200D}'

  /** Characters that show nothing and are not among the dropped ones: three of them make a
      question, and one of them makes a second option of the same appearance. */
  lemma UnseenCharactersPass(lower: Folding)
    requires lower("y") != lower("y" + [ZERO_WIDTH_JOINER])
    ensures var question := [WORD_JOINER, WORD_JOINER, WORD_JOINER];
            CleanText(question) == question && QuestionProblem(question).None?
    ensures var options := ["y", "y" + [ZERO_WIDTH_JOINER]];
            Cleaned(options) == options && OptionsProblem(options, lower).None?
  {
    var options := ["y", "y" + [ZERO_WIDTH_JOINER]];
    SurvivorsPass([WORD_JOINER, WORD_JOINER, WORD_JOINER]);
    SurvivorsPass(options[0]);
    SurvivorsPass(options[1]);
    CleanedTwice(options);
    CleanTextFixesExactlyTheClean(options[0]);
    CleanTextFixesExactlyTheClean(options[1]);
    OptionsAcceptedIff(options, lower);
  }

  /** A question is accepted iff it has three to three hundred characters once cleaned, and
      otherwise the complaint says which way it fails. */
  lemma QuestionAcceptedIff(value: string)
    ensures var clean := CleanText(value);
            && (QuestionProblem(clean).None? <==> 3 <= |clean| <= 300)
            && (QuestionProblem(clean) == Some(QuestionMissing) <==> !HasSurvivor(value))
            && (QuestionProblem(clean) == Some(QuestionTooLong) <==> |clean| > 300)
  {
    BlankIff(value);
  }

  /** What is said about rejected labels: their number first, then the first label, in
      order, that is too long or, if it is not, repeats an earlier one. */
  lemma OptionsComplaint(labels: seq<string>, lower: Folding)
    ensures OptionsProblem(labels, lower) == Some(TooFewOptions) <==> |labels| < 2
    ensures OptionsProblem(labels, lower) == Some(TooManyOptions) <==> |labels| > 10
    ensures forall i :: FirstFault(labels, lower, i) && 2 <= |labels| <= 10 ==>
              OptionsProblem(labels, lower) == Some(if |labels[i]| > 120 then OptionTooLong else OptionsNotDifferent)
  {
    forall i | FirstFault(labels, lower, i)
      ensures ScanProblem(labels, lower) == Some(if |labels[i]| > 120 then OptionTooLong else OptionsNotDifferent)
    {
      FaultIsScanned(labels, lower, i);
    }
    ScanIsAboutLabels(labels, lower);
  }

  ghost predicate Fault(labels: seq<string>, lower: Folding, i: int) {
    0 <= i < |labels| && (|labels[i]| > 120 || exists j :: 0 <= j < i && lower(labels[j]) == lower(labels[i]))
  }

  ghost predicate FirstFault(labels: seq<string>, lower: Folding, i: int) {
    Fault(labels, lower, i) && forall j :: 0 <= j < i ==> !Fault(labels, lower, j)
  }

  lemma {:induction false} ScanIsAboutLabels(labels: seq<string>, lower: Folding)
    ensures ScanProblem(labels, lower).Some? ==>
      ScanProblem(labels, lower).value == OptionTooLong || ScanProblem(labels, lower).value == OptionsNotDifferent
  {
    if |labels| > 0 {
      ScanIsAboutLabels(labels[..|labels| - 1], lower);
    }
  }

  lemma FaultIsScanned(labels: seq<string>, lower: Folding, i: nat)
    requires FirstFault(labels, lower, i)
    ensures ScanProblem(labels, lower) == Some(if |labels[i]| > 120 then OptionTooLong else OptionsNotDifferent)
  {
    var upTo, before := labels[..i + 1], labels[..i];
    assert upTo[..i] == before;
    ScanFindsTheFirst(before, lower, 0);
    forall j | 0 <= j < |before| ensures |before[j]| <= OPTION_MAX && !Repeats(before, j, lower) {
      assert !Fault(labels, lower, j);
    }
    if |labels[i]| <= 120 {
      var k :| 0 <= k < i && lower(labels[k]) == lower(labels[i]);
      assert lower(upTo[k]) == lower(upTo[i]);
    }
    ScanFindsTheFirst(labels, lower, i + 1);
  }

  // ---- The validator --------------------------------------------------------------------

  /** Only the first problem of a field is kept. */
  function WithProblem(fields: map<string, Problem>, field: string, p: Option<Problem>): (r: map<string, Problem>)
    ensures r == map[] <==> fields == map[] && p.None?
    ensures field in fields || p.None? ==> r == fields
  {
    if p.Some? && field !in fields then
      assert field in fields[field := p.value];
      fields[field := p.value]
    else fields
  }

  class Validator {
    var fields: map<string, Problem>

    constructor ()
      ensures fields == map[]
    {
      fields := map[];
    }

    method Add(field: string, p: Problem)
      modifies this
      ensures fields == WithProblem(old(fields), field, Some(p))
      ensures field in fields && fields[field] == if field in old(fields) then old(fields)[field] else p
      ensures forall other :: other != field ==>
                (other in fields <==> other in old(fields)) && (other in fields ==> fields[other] == old(fields)[other])
    {
      if field !in fields {
        fields := fields[field := p];
      }
    }

    method Question(field: string, value: string) returns (clean: string)
      modifies this
      ensures clean == CleanText(value)
      ensures fields == WithProblem(old(fields), field, QuestionProblem(clean))
    {
      clean := CleanText(value);
      if clean == "" {
        Add(field, QuestionMissing);
      } else if |clean| < QUESTION_MIN {
        Add(field, QuestionTooShort);
      } else if |clean| > QUESTION_MAX {
        Add(field, QuestionTooLong);
      }
    }

    method Options(field: string, values: seq<string>, lower: Folding) returns (cleaned: seq<string>)
      modifies this
      ensures cleaned == Cleaned(values)
      ensures fields == WithProblem(old(fields), field, OptionsProblem(cleaned, lower))
    {
      cleaned := [];
      for i := 0 to |values|
        invariant cleaned == Cleaned(values[..i])
      {
        assert values[..i + 1][..i] == values[..i];
        var clean := CleanText(values[i]);
        if clean != "" {
          cleaned := cleaned + [clean];
        }
      }
      assert values[..|values|] == values;
      if |cleaned| < MIN_OPTIONS {
        Add(field, TooFewOptions);
        return;
      }
      if |cleaned| > MAX_OPTIONS {
        Add(field, TooManyOptions);
        return;
      }
      CheckLabels(field, cleaned, lower);
    }

    method CheckLabels(field: string, cleaned: seq<string>, lower: Folding)
      modifies this
      ensures fields == WithProblem(old(fields), field, ScanProblem(cleaned, lower))
    {
      var seen: set<string> := {};
      for i := 0 to |cleaned|
        invariant fields == old(fields)
        invariant forall key :: key in seen <==> exists j :: 0 <= j < i && lower(cleaned[j]) == key
        invariant ScanProblem(cleaned[..i], lower).None?
      {
        var upTo := cleaned[..i + 1];
        assert upTo[..i] == cleaned[..i];
        assert forall j :: 0 <= j <= i ==> upTo[j] == cleaned[j];
        var key := lower(cleaned[i]);
        assert Repeats(upTo, i, lower) <==> key in seen;
        if |cleaned[i]| > OPTION_MAX {
          ScanFindsTheFirst(cleaned, lower, i + 1);
          Add(field, OptionTooLong);
          return;
        }
        if key in seen {
          ScanFindsTheFirst(cleaned, lower, i + 1);
          Add(field, OptionsNotDifferent);
          return;
        }
        seen := seen + {key};
      }
      assert cleaned[..|cleaned|] == cleaned;
    }
  }
}
