/** The service's rewrite of a formula or filter condition (`preprocess_condition`):
    every occurrence of a column name that no word character and no backtick
    touches on either side is put between backticks.

    The rewrite is one regular-expression substitution with the pattern
    (?<!`)(?<!\w)(c1|c2|...)(?!\w)(?!`). It is modelled as a left-to-right scan
    that cuts the condition into pieces: characters copied as they are, and
    column names that are wrapped. The scan follows Python's `re.sub`: at each
    position the alternatives are tried in column order, a match resumes the
    scan at its end, and after an empty match the next match at the same
    position must be non-empty. What counts as a word character (`\w`) is the
    parameter `isWord`. */
module Condition {
  import opened Values

  /** A piece of the scanned condition, with the offset where it starts. */
  datatype Piece = Copied(at: nat, ch: char) | Wrapped(at: nat, name: string)

  /** One step of the scan: the piece found, where the scan resumes, and
      whether the piece was an empty match. */
  datatype Step = Step(piece: Piece, next: nat, afterEmpty: bool)

  /** The alternatives of the group `(c1|c2|...)`. With no columns the group is
      empty and matches the empty string. */
  function Alternatives(columns: seq<string>): seq<string>
  {
    if columns == [] then [""] else columns
  }

  /** `(?<!`)(?<!\w)` at position p. */
  predicate FreeBefore(s: string, p: nat, isWord: char -> bool)
    requires p <= |s|
  {
    p == 0 || (s[p - 1] != '`' && !isWord(s[p - 1]))
  }

  /** `(?!\w)(?!`)` at position e. */
  predicate FreeAfter(s: string, e: nat, isWord: char -> bool)
    requires e <= |s|
  {
    e == |s| || (s[e] != '`' && !isWord(s[e]))
  }

  predicate OccursAt(s: string, name: string, p: nat)
  {
    p + |name| <= |s| && s[p..p + |name|] == name
  }

  /** `name` occurs at p and the pattern's four look-arounds accept it there. */
  predicate Qualifies(s: string, name: string, p: nat, isWord: char -> bool)
  {
    OccursAt(s, name, p) && FreeBefore(s, p, isWord) && FreeAfter(s, p + |name|, isWord)
  }

  /** What the regex engine may match at p: a qualifying alternative, and a
      non-empty one when the previous match was empty and ended at p. */
  predicate Eligible(s: string, name: string, p: nat, nonEmpty: bool, isWord: char -> bool)
  {
    Qualifies(s, name, p, isWord) && (nonEmpty ==> name != "")
  }

  /** The index of the alternative the engine matches at p: the first eligible
      one in order. It fits in the rest of s, and after an empty match it is a
      non-empty one. */
  function Pick(s: string, alts: seq<string>, p: nat, nonEmpty: bool, isWord: char -> bool): (r: Option<nat>)
    ensures r.Some? ==> r.value < |alts| && p + |alts[r.value]| <= |s| && (nonEmpty ==> alts[r.value] != "")
    decreases |alts|
  {
    if alts == [] then None
    else if Eligible(s, alts[0], p, nonEmpty, isWord) then Some(0)
    else
      match Pick(s, alts[1..], p, nonEmpty, isWord)
      case None => None
      case Some(j) => Some(j + 1)
  }

  /** The picked alternative is eligible and none before it is; with none
      picked, none is eligible. */
  lemma {:induction false} PickSpec(s: string, alts: seq<string>, p: nat, nonEmpty: bool, isWord: char -> bool)
    ensures var r := Pick(s, alts, p, nonEmpty, isWord);
      && (r.Some? ==> Eligible(s, alts[r.value], p, nonEmpty, isWord))
      && (r.Some? ==> forall i :: 0 <= i < r.value ==> !Eligible(s, alts[i], p, nonEmpty, isWord))
      && (r.None? ==> forall i :: 0 <= i < |alts| ==> !Eligible(s, alts[i], p, nonEmpty, isWord))
    decreases |alts|
  {
    if alts != [] && !Eligible(s, alts[0], p, nonEmpty, isWord) {
      PickSpec(s, alts[1..], p, nonEmpty, isWord);
      var r := Pick(s, alts[1..], p, nonEmpty, isWord);
      if r.Some? {
        forall i | 0 <= i < r.value + 1 ensures !Eligible(s, alts[i], p, nonEmpty, isWord) {
          if i > 0 { assert alts[i] == alts[1..][i - 1]; }
        }
      } else {
        forall i | 0 <= i < |alts| ensures !Eligible(s, alts[i], p, nonEmpty, isWord) {
          if i > 0 { assert alts[i] == alts[1..][i - 1]; }
        }
      }
    }
  }

  function Width(piece: Piece): nat
  {
    match piece
    case Copied(_, _) => 1
    case Wrapped(_, name) => |name|
  }

  /** What the engine does at p: wrap the picked alternative and resume after
      it, or copy one character; at the end of s with nothing picked the scan
      stops. The scan always moves on, except once after an empty match. */
  function Next(s: string, alts: seq<string>, p: nat, mustAdvance: bool, isWord: char -> bool): (r: Option<Step>)
    requires p <= |s|
    ensures r.None? <==> Pick(s, alts, p, mustAdvance, isWord).None? && p == |s|
    ensures r.Some? ==> r.value.piece.at == p && r.value.next == p + Width(r.value.piece) <= |s|
    ensures r.Some? ==> r.value.next > p || (r.value.afterEmpty && !mustAdvance)
  {
    match Pick(s, alts, p, mustAdvance, isWord)
    case Some(j) => Some(Step(Wrapped(p, alts[j]), p + |alts[j]|, alts[j] == ""))
    case None => if p == |s| then None else Some(Step(Copied(p, s[p]), p + 1, false))
  }

  /** The pieces of s[p..]; `mustAdvance` holds right after an empty match at p. */
  function Scan(s: string, alts: seq<string>, p: nat, mustAdvance: bool, isWord: char -> bool): seq<Piece>
    requires p <= |s|
    decreases |s| - p, if mustAdvance then 0 else 1
  {
    match Next(s, alts, p, mustAdvance, isWord)
    case None => []
    case Some(step) => [step.piece] + Scan(s, alts, step.next, step.afterEmpty, isWord)
  }

  /** The text a piece stands for in the condition. */
  function Text(piece: Piece): string
  {
    match piece
    case Copied(_, ch) => [ch]
    case Wrapped(_, name) => name
  }

  /** The text a piece becomes in the rewritten condition. */
  function Rendered(piece: Piece): string
  {
    match piece
    case Copied(_, ch) => [ch]
    case Wrapped(_, name) => "`" + name + "`"
  }

  /** The rewritten text. */
  function Render(pieces: seq<Piece>): string
  {
    if pieces == [] then [] else Rendered(pieces[0]) + Render(pieces[1..])
  }

  /** The text the pieces were cut from. */
  function Source(pieces: seq<Piece>): string
  {
    if pieces == [] then [] else Text(pieces[0]) + Source(pieces[1..])
  }

  /** `preprocess_condition(condition, df)` for a frame whose columns are `columns`. */
  function Preprocess(condition: string, columns: seq<string>, isWord: char -> bool): string
  {
    Render(Scan(condition, Alternatives(columns), 0, false, isWord))
  }

  /** Pieces lie end to end from p, each where the previous one stops. */
  predicate Contiguous(pieces: seq<Piece>, p: nat)
  {
    (pieces != [] ==> pieces[0].at == p) &&
    forall k :: 0 <= k < |pieces| - 1 ==> pieces[k + 1].at == pieces[k].at + Width(pieces[k])
  }

  // ---------------------------------------------------------------------------
  // Facts about one piece followed by more

  lemma SourceCons(piece: Piece, rest: seq<Piece>)
    ensures Source([piece] + rest) == Text(piece) + Source(rest)
  {
    assert ([piece] + rest)[1..] == rest;
  }

  lemma RenderCons(piece: Piece, rest: seq<Piece>)
    ensures Render([piece] + rest) == Rendered(piece) + Render(rest)
  {
    assert ([piece] + rest)[1..] == rest;
  }

  /** A wrapped name is an alternative that qualifies where it stands; a copied
      character is the condition's own and no non-empty alternative qualifies
      where it stands. */
  predicate WellPlaced(s: string, alts: seq<string>, isWord: char -> bool, piece: Piece)
  {
    piece.at + Width(piece) <= |s| &&
    match piece
    case Wrapped(at, name) => name in alts && Qualifies(s, name, at, isWord)
    case Copied(at, ch) =>
      s[at] == ch && forall i :: 0 <= i < |alts| && alts[i] != "" ==> !Qualifies(s, alts[i], at, isWord)
  }

  predicate AllPlaced(s: string, alts: seq<string>, isWord: char -> bool, pieces: seq<Piece>, p: nat)
  {
    forall k :: 0 <= k < |pieces| ==> p <= pieces[k].at && WellPlaced(s, alts, isWord, pieces[k])
  }

  lemma AllPlacedCons(s: string, alts: seq<string>, isWord: char -> bool, piece: Piece, rest: seq<Piece>, p: nat, q: nat)
    requires p <= piece.at && p <= q && WellPlaced(s, alts, isWord, piece) && AllPlaced(s, alts, isWord, rest, q)
    ensures AllPlaced(s, alts, isWord, [piece] + rest, p)
  {
    var pieces := [piece] + rest;
    forall k | 0 <= k < |pieces| ensures p <= pieces[k].at && WellPlaced(s, alts, isWord, pieces[k]) {
      if k > 0 {
        assert pieces[k] == rest[k - 1];
      }
    }
  }

  lemma ContiguousCons(piece: Piece, rest: seq<Piece>)
    requires Contiguous(rest, piece.at + Width(piece))
    ensures Contiguous([piece] + rest, piece.at)
  {
    var pieces := [piece] + rest;
    forall k | 0 <= k < |pieces| - 1 ensures pieces[k + 1].at == pieces[k].at + Width(pieces[k]) {
      assert pieces[k + 1] == rest[k];
      if k > 0 {
        assert pieces[k] == rest[k - 1];
      }
    }
  }

  /** The piece's name is an alternative before which no alternative qualifies
      at the piece's offset. */
  predicate FirstQualifying(s: string, alts: seq<string>, isWord: char -> bool, piece: Piece)
    requires piece.Wrapped?
  {
    exists j :: 0 <= j < |alts| && alts[j] == piece.name &&
      forall i :: 0 <= i < j ==> !Qualifies(s, alts[i], piece.at, isWord)
  }

  predicate AllFirstQualifying(s: string, alts: seq<string>, isWord: char -> bool, pieces: seq<Piece>)
  {
    forall k :: 0 <= k < |pieces| && pieces[k].Wrapped? ==> FirstQualifying(s, alts, isWord, pieces[k])
  }

  lemma AllFirstQualifyingCons(s: string, alts: seq<string>, isWord: char -> bool, piece: Piece, rest: seq<Piece>)
    requires piece.Wrapped? ==> FirstQualifying(s, alts, isWord, piece)
    requires AllFirstQualifying(s, alts, isWord, rest)
    ensures AllFirstQualifying(s, alts, isWord, [piece] + rest)
  {
    var pieces := [piece] + rest;
    forall k | 0 <= k < |pieces| && pieces[k].Wrapped? ensures FirstQualifying(s, alts, isWord, pieces[k]) {
      if k > 0 {
        assert pieces[k] == rest[k - 1];
      }
    }
  }

  // ---------------------------------------------------------------------------
  // One step of the scan

  /** A step's piece stands for the text it was cut from. */
  lemma NextText(s: string, alts: seq<string>, p: nat, mustAdvance: bool, isWord: char -> bool)
    requires p <= |s| && Next(s, alts, p, mustAdvance, isWord).Some?
    ensures var step := Next(s, alts, p, mustAdvance, isWord).value;
      Text(step.piece) == s[p..step.next]
  {
    PickSpec(s, alts, p, mustAdvance, isWord);
  }

  /** A step's piece is well placed. */
  lemma NextPlaced(s: string, alts: seq<string>, p: nat, mustAdvance: bool, isWord: char -> bool)
    requires p <= |s| && Next(s, alts, p, mustAdvance, isWord).Some?
    ensures WellPlaced(s, alts, isWord, Next(s, alts, p, mustAdvance, isWord).value.piece)
  {
    PickSpec(s, alts, p, mustAdvance, isWord);
    var r := Pick(s, alts, p, mustAdvance, isWord);
    if r.None? {
      forall i | 0 <= i < |alts| && alts[i] != ""
        ensures !Qualifies(s, alts[i], p, isWord)
      {
        assert !Eligible(s, alts[i], p, mustAdvance, isWord);
      }
    }
  }

  /** With non-empty names, a step's wrapped name is the first that qualifies. */
  lemma NextFirstQualifying(s: string, alts: seq<string>, p: nat, mustAdvance: bool, isWord: char -> bool)
    requires p <= |s| && Next(s, alts, p, mustAdvance, isWord).Some?
    requires forall i :: 0 <= i < |alts| ==> alts[i] != ""
    requires Next(s, alts, p, mustAdvance, isWord).value.piece.Wrapped?
    ensures FirstQualifying(s, alts, isWord, Next(s, alts, p, mustAdvance, isWord).value.piece)
  {
    PickSpec(s, alts, p, mustAdvance, isWord);
    var j := Pick(s, alts, p, mustAdvance, isWord).value;
    forall i | 0 <= i < j ensures !Qualifies(s, alts[i], p, isWord) {
      assert !Eligible(s, alts[i], p, mustAdvance, isWord);
    }
  }

  // ---------------------------------------------------------------------------
  // The whole scan

  lemma ScanSourceStep(s: string, alts: seq<string>, p: nat, mustAdvance: bool, isWord: char -> bool)
    requires p <= |s|
    requires Next(s, alts, p, mustAdvance, isWord).Some? ==>
      var step := Next(s, alts, p, mustAdvance, isWord).value;
      Source(Scan(s, alts, step.next, step.afterEmpty, isWord)) == s[step.next..]
    ensures Source(Scan(s, alts, p, mustAdvance, isWord)) == s[p..]
  {
    var n := Next(s, alts, p, mustAdvance, isWord);
    if n.Some? {
      var step := n.value;
      var rest := Scan(s, alts, step.next, step.afterEmpty, isWord);
      assert Scan(s, alts, p, mustAdvance, isWord) == [step.piece] + rest;
      NextText(s, alts, p, mustAdvance, isWord);
      SourceCons(step.piece, rest);
      assert s[p..] == s[p..step.next] + s[step.next..];
    }
  }

  /** Cutting s[p..] into pieces loses and adds nothing: the text between the
      backticks is the original occurrence and every other character is copied. */
  lemma {:induction false} ScanSource(s: string, alts: seq<string>, p: nat, mustAdvance: bool, isWord: char -> bool)
    requires p <= |s|
    ensures Source(Scan(s, alts, p, mustAdvance, isWord)) == s[p..]
    decreases |s| - p, if mustAdvance then 0 else 1
  {
    var n := Next(s, alts, p, mustAdvance, isWord);
    if n.Some? {
      ScanSource(s, alts, n.value.next, n.value.afterEmpty, isWord);
    }
    ScanSourceStep(s, alts, p, mustAdvance, isWord);
  }

  lemma ScanPlacedStep(s: string, alts: seq<string>, p: nat, mustAdvance: bool, isWord: char -> bool)
    requires p <= |s|
    requires Next(s, alts, p, mustAdvance, isWord).Some? ==>
      var step := Next(s, alts, p, mustAdvance, isWord).value;
      AllPlaced(s, alts, isWord, Scan(s, alts, step.next, step.afterEmpty, isWord), step.next)
    ensures AllPlaced(s, alts, isWord, Scan(s, alts, p, mustAdvance, isWord), p)
  {
    var n := Next(s, alts, p, mustAdvance, isWord);
    if n.Some? {
      var step := n.value;
      var rest := Scan(s, alts, step.next, step.afterEmpty, isWord);
      assert Scan(s, alts, p, mustAdvance, isWord) == [step.piece] + rest;
      NextPlaced(s, alts, p, mustAdvance, isWord);
      AllPlacedCons(s, alts, isWord, step.piece, rest, p, step.next);
    }
  }

  /** Every piece of s[p..] is well placed and lies at or after p. */
  lemma {:induction false} ScanPlaced(s: string, alts: seq<string>, p: nat, mustAdvance: bool, isWord: char -> bool)
    requires p <= |s|
    ensures AllPlaced(s, alts, isWord, Scan(s, alts, p, mustAdvance, isWord), p)
    decreases |s| - p, if mustAdvance then 0 else 1
  {
    var n := Next(s, alts, p, mustAdvance, isWord);
    if n.Some? {
      ScanPlaced(s, alts, n.value.next, n.value.afterEmpty, isWord);
    }
    ScanPlacedStep(s, alts, p, mustAdvance, isWord);
  }

  lemma ScanContiguousStep(s: string, alts: seq<string>, p: nat, mustAdvance: bool, isWord: char -> bool)
    requires p <= |s|
    requires Next(s, alts, p, mustAdvance, isWord).Some? ==>
      var step := Next(s, alts, p, mustAdvance, isWord).value;
      Contiguous(Scan(s, alts, step.next, step.afterEmpty, isWord), step.next)
    ensures Contiguous(Scan(s, alts, p, mustAdvance, isWord), p)
  {
    var n := Next(s, alts, p, mustAdvance, isWord);
    if n.Some? {
      var step := n.value;
      var rest := Scan(s, alts, step.next, step.afterEmpty, isWord);
      assert Scan(s, alts, p, mustAdvance, isWord) == [step.piece] + rest;
      ContiguousCons(step.piece, rest);
    }
  }

  /** The pieces follow each other from p without gap or overlap. */
  lemma {:induction false} ScanContiguous(s: string, alts: seq<string>, p: nat, mustAdvance: bool, isWord: char -> bool)
    requires p <= |s|
    ensures Contiguous(Scan(s, alts, p, mustAdvance, isWord), p)
    decreases |s| - p, if mustAdvance then 0 else 1
  {
    var n := Next(s, alts, p, mustAdvance, isWord);
    if n.Some? {
      ScanContiguous(s, alts, n.value.next, n.value.afterEmpty, isWord);
    }
    ScanContiguousStep(s, alts, p, mustAdvance, isWord);
  }

  lemma ScanWrapsStep(s: string, alts: seq<string>, p: nat, mustAdvance: bool, isWord: char -> bool)
    requires p <= |s|
    requires forall i :: 0 <= i < |alts| ==> alts[i] != ""
    requires Next(s, alts, p, mustAdvance, isWord).Some? ==>
      var step := Next(s, alts, p, mustAdvance, isWord).value;
      AllFirstQualifying(s, alts, isWord, Scan(s, alts, step.next, step.afterEmpty, isWord))
    ensures AllFirstQualifying(s, alts, isWord, Scan(s, alts, p, mustAdvance, isWord))
  {
    var n := Next(s, alts, p, mustAdvance, isWord);
    if n.Some? {
      var step := n.value;
      var rest := Scan(s, alts, step.next, step.afterEmpty, isWord);
      assert Scan(s, alts, p, mustAdvance, isWord) == [step.piece] + rest;
      if step.piece.Wrapped? {
        NextFirstQualifying(s, alts, p, mustAdvance, isWord);
      }
      AllFirstQualifyingCons(s, alts, isWord, step.piece, rest);
    }
  }

  /** With non-empty column names, each wrapped name is the first column in
      column order that qualifies at its offset. */
  lemma {:induction false} ScanWrapsFirstQualifying(s: string, alts: seq<string>, p: nat, mustAdvance: bool, isWord: char -> bool)
    requires p <= |s|
    requires forall i :: 0 <= i < |alts| ==> alts[i] != ""
    ensures AllFirstQualifying(s, alts, isWord, Scan(s, alts, p, mustAdvance, isWord))
    decreases |s| - p, if mustAdvance then 0 else 1
  {
    var n := Next(s, alts, p, mustAdvance, isWord);
    if n.Some? {
      ScanWrapsFirstQualifying(s, alts, n.value.next, n.value.afterEmpty, isWord);
    }
    ScanWrapsStep(s, alts, p, mustAdvance, isWord);
  }

  /** Without wrapped names the rendered text is the source text. */
  lemma {:induction false} RenderWithoutWraps(pieces: seq<Piece>)
    requires forall k :: 0 <= k < |pieces| ==> pieces[k].Copied?
    ensures Render(pieces) == Source(pieces)
  {
    if pieces != [] {
      RenderWithoutWraps(pieces[1..]);
    }
  }

  // ---------------------------------------------------------------------------
  // preprocess_condition

  /** A condition in which no column name qualifies anywhere comes back unchanged. */
  lemma PreprocessUnchanged(condition: string, columns: seq<string>, isWord: char -> bool)
    requires forall name, p: nat :: name in Alternatives(columns) && p <= |condition| ==>
               !Qualifies(condition, name, p, isWord)
    ensures Preprocess(condition, columns, isWord) == condition
  {
    var alts := Alternatives(columns);
    var pieces := Scan(condition, alts, 0, false, isWord);
    ScanPlaced(condition, alts, 0, false, isWord);
    ScanSource(condition, alts, 0, false, isWord);
    forall k | 0 <= k < |pieces| ensures pieces[k].Copied? {
      assert WellPlaced(condition, alts, isWord, pieces[k]);
    }
    RenderWithoutWraps(pieces);
    assert condition[0..] == condition;
  }

  /** `preprocess_condition` as the source promises it: the pieces of the
      condition are rendered with backticks around the wrapped names; between the
      backticks stands exactly the original text; the pieces cover the condition
      left to right without overlap; a name is wrapped only where it qualifies,
      that is where no word character and no backtick touches it (so an
      occurrence already next to a backtick stays as it is); a character is
      copied only where no non-empty column name qualifies; and, for non-empty
      column names, the wrapped name is the first qualifying one in column order. */
  lemma PreprocessSpec(condition: string, columns: seq<string>, isWord: char -> bool)
    ensures var pieces := Scan(condition, Alternatives(columns), 0, false, isWord);
      && Preprocess(condition, columns, isWord) == Render(pieces)
      && Source(pieces) == condition
      && Contiguous(pieces, 0)
      && (forall k :: 0 <= k < |pieces| ==> WellPlaced(condition, Alternatives(columns), isWord, pieces[k]))
      && ((columns != [] && forall i :: 0 <= i < |columns| ==> columns[i] != "") ==>
            forall k :: 0 <= k < |pieces| && pieces[k].Wrapped? ==>
              FirstQualifying(condition, columns, isWord, pieces[k]))
  {
    var alts := Alternatives(columns);
    ScanSource(condition, alts, 0, false, isWord);
    ScanPlaced(condition, alts, 0, false, isWord);
    ScanContiguous(condition, alts, 0, false, isWord);
    assert condition[0..] == condition;
    if columns != [] && forall i :: 0 <= i < |columns| ==> columns[i] != "" {
      ScanWrapsFirstQualifying(condition, alts, 0, false, isWord);
    }
  }

  /** The rewrite with an empty group, stated independently of the scan: from
      offset p, "``" at every gap neither of whose neighbours is a word character
      or a backtick, and every character of the condition kept in order. */
  function EmptyGroupRewrite(s: string, p: nat, isWord: char -> bool): string
    requires p <= |s|
    decreases |s| - p
  {
    (if FreeBefore(s, p, isWord) && FreeAfter(s, p, isWord) then "``" else "") +
    (if p == |s| then "" else [s[p]] + EmptyGroupRewrite(s, p + 1, isWord))
  }

  /** After an empty match at p the scan copies s[p] and goes on at p + 1. */
  lemma EmptyGroupAfterMatch(s: string, p: nat, isWord: char -> bool)
    requires p <= |s|
    ensures Scan(s, [""], p, true, isWord) ==
            if p == |s| then [] else [Copied(p, s[p])] + Scan(s, [""], p + 1, false, isWord)
  {
    assert [""][1..] == [];
    assert Pick(s, [""], p, true, isWord).None?;
  }

  /** What the empty-group scan renders after position p's optional match. */
  lemma EmptyGroupRest(s: string, p: nat, isWord: char -> bool)
    requires p <= |s|
    requires p < |s| ==> Render(Scan(s, [""], p + 1, false, isWord)) == EmptyGroupRewrite(s, p + 1, isWord)
    ensures Render(Scan(s, [""], p, true, isWord)) == (if p == |s| then "" else [s[p]] + EmptyGroupRewrite(s, p + 1, isWord))
  {
    EmptyGroupAfterMatch(s, p, isWord);
    if p < |s| {
      RenderCons(Copied(p, s[p]), Scan(s, [""], p + 1, false, isWord));
    }
  }

  /** With no match at p, the scan goes on as right after an empty match. */
  lemma EmptyGroupNoMatch(s: string, p: nat, isWord: char -> bool)
    requires p <= |s| && !(FreeBefore(s, p, isWord) && FreeAfter(s, p, isWord))
    ensures Scan(s, [""], p, false, isWord) == Scan(s, [""], p, true, isWord)
  {
    assert [""][1..] == [];
    assert Pick(s, [""], p, false, isWord).None?;
    assert Pick(s, [""], p, true, isWord).None?;
  }

  /** With a match at p, the scan wraps the empty name and goes on right after it. */
  lemma EmptyGroupMatch(s: string, p: nat, isWord: char -> bool)
    requires p <= |s| && FreeBefore(s, p, isWord) && FreeAfter(s, p, isWord)
    ensures Scan(s, [""], p, false, isWord) == [Wrapped(p, "")] + Scan(s, [""], p, true, isWord)
  {
    assert s[p..p] == "";
    assert Pick(s, [""], p, false, isWord) == Some(0);
  }

  /** One position of the empty-group scan: what it renders equals the
      reference, given that it does from p + 1 on. */
  lemma EmptyGroupStep(s: string, p: nat, isWord: char -> bool)
    requires p <= |s|
    requires p < |s| ==> Render(Scan(s, [""], p + 1, false, isWord)) == EmptyGroupRewrite(s, p + 1, isWord)
    ensures Render(Scan(s, [""], p, false, isWord)) == EmptyGroupRewrite(s, p, isWord)
  {
    EmptyGroupRest(s, p, isWord);
    if FreeBefore(s, p, isWord) && FreeAfter(s, p, isWord) {
      EmptyGroupMatch(s, p, isWord);
      RenderCons(Wrapped(p, ""), Scan(s, [""], p, true, isWord));
    } else {
      EmptyGroupNoMatch(s, p, isWord);
    }
  }

  lemma {:induction false} EmptyGroupScan(s: string, p: nat, isWord: char -> bool)
    requires p <= |s|
    ensures Render(Scan(s, [""], p, false, isWord)) == EmptyGroupRewrite(s, p, isWord)
    decreases |s| - p
  {
    if p < |s| {
      EmptyGroupScan(s, p + 1, isWord);
    }
    EmptyGroupStep(s, p, isWord);
  }

  /** A frame without columns makes the group `()`: the rewrite inserts an
      empty backtick pair at exactly the gaps that no word character and no
      backtick touches, and changes nothing else. */
  lemma NoColumnsRewrite(condition: string, isWord: char -> bool)
    ensures Preprocess(condition, [], isWord) == EmptyGroupRewrite(condition, 0, isWord)
  {
    EmptyGroupScan(condition, 0, isWord);
  }

  // ---------------------------------------------------------------------------
  // Examples

  predicate AsciiWord(ch: char)
  {
    ('a' <= ch <= 'z') || ('A' <= ch <= 'Z') || ('0' <= ch <= '9') || ch == '_'
  }

  /** Overlapping names: "A" is passed over inside "AB", where a word character
      follows it, and the longer name is wrapped. */
  lemma OverlappingNamesExample()
    ensures Preprocess("AB>A", ["A", "AB"], AsciiWord) == "`AB`>`A`"
  {
    OverlappingNamesScan();
    OverlappingNamesRender();
  }

  lemma OverlappingNamesRender()
    ensures Render([Wrapped(0, "AB"), Copied(2, '>'), Wrapped(3, "A")]) == "`AB`>`A`"
  {
    RenderCons(Wrapped(3, "A"), []);
    RenderCons(Copied(2, '>'), [Wrapped(3, "A")]);
    RenderCons(Wrapped(0, "AB"), [Copied(2, '>'), Wrapped(3, "A")]);
    assert [Copied(2, '>')] + [Wrapped(3, "A")] == [Copied(2, '>'), Wrapped(3, "A")];
    assert [Wrapped(0, "AB")] + [Copied(2, '>'), Wrapped(3, "A")] == [Wrapped(0, "AB"), Copied(2, '>'), Wrapped(3, "A")];
  }

  lemma OverlappingNamesScan()
    ensures Scan("AB>A", ["A", "AB"], 0, false, AsciiWord) == [Wrapped(0, "AB"), Copied(2, '>'), Wrapped(3, "A")]
  {
    var s, alts := "AB>A", ["A", "AB"];
    OverlappingNamesScanTail();
    assert !Eligible(s, alts[0], 0, false, AsciiWord) by {
      assert AsciiWord(s[1]);
    }
    assert Eligible(s, alts[1], 0, false, AsciiWord) by {
      assert s[0..2] == "AB";
    }
    assert Pick(s, alts, 0, false, AsciiWord) == Some(1);
  }

  lemma OverlappingNamesScanTail()
    ensures Scan("AB>A", ["A", "AB"], 2, false, AsciiWord) == [Copied(2, '>'), Wrapped(3, "A")]
  {
    var s, alts := "AB>A", ["A", "AB"];
    assert Pick(s, alts, 4, false, AsciiWord) == None;
    assert Scan(s, alts, 4, false, AsciiWord) == [];
    assert Eligible(s, alts[0], 3, false, AsciiWord) by {
      assert s[3..4] == "A";
    }
    assert Pick(s, alts, 3, false, AsciiWord) == Some(0);
    assert Scan(s, alts, 3, false, AsciiWord) == [Wrapped(3, "A")];
    assert Pick(s, alts, 2, false, AsciiWord) == None;
  }

  /** An occurrence already in backticks is left alone. */
  lemma QuotedNameExample()
    ensures Preprocess("`A`", ["A"], AsciiWord) == "`A`"
  {
    QuotedNameScan();
    QuotedNameRender();
  }

  lemma QuotedNameRender()
    ensures Render([Copied(0, '`'), Copied(1, 'A'), Copied(2, '`')]) == "`A`"
  {
    RenderCons(Copied(2, '`'), []);
    RenderCons(Copied(1, 'A'), [Copied(2, '`')]);
    RenderCons(Copied(0, '`'), [Copied(1, 'A'), Copied(2, '`')]);
    assert [Copied(1, 'A')] + [Copied(2, '`')] == [Copied(1, 'A'), Copied(2, '`')];
    assert [Copied(0, '`')] + [Copied(1, 'A'), Copied(2, '`')] == [Copied(0, '`'), Copied(1, 'A'), Copied(2, '`')];
  }

  lemma QuotedNameScan()
    ensures Scan("`A`", ["A"], 0, false, AsciiWord) == [Copied(0, '`'), Copied(1, 'A'), Copied(2, '`')]
  {
    var s, alts := "`A`", ["A"];
    assert Pick(s, alts, 3, false, AsciiWord) == None;
    assert Scan(s, alts, 3, false, AsciiWord) == [];
    assert Pick(s, alts, 2, false, AsciiWord) == None;
    assert Scan(s, alts, 2, false, AsciiWord) == [Copied(2, '`')];
    assert Pick(s, alts, 1, false, AsciiWord) == None;
    assert Scan(s, alts, 1, false, AsciiWord) == [Copied(1, 'A'), Copied(2, '`')];
    assert Pick(s, alts, 0, false, AsciiWord) == None;
  }

  /** A frame without columns makes the group empty: an empty backtick pair is
      inserted wherever nothing word-like or backticked touches the gap. */
  lemma NoColumnsExample()
    ensures Preprocess("x >1", [], AsciiWord) == "x ``>1"
  {
    var s := "x >1";
    NoColumnsRewrite(s, AsciiWord);
    NoColumnsTail();
    assert !AsciiWord(s[1]) && AsciiWord(s[0]);
    assert EmptyGroupRewrite(s, 1, AsciiWord) == " ``>1";
  }

  lemma NoColumnsTail()
    ensures EmptyGroupRewrite("x >1", 2, AsciiWord) == "``>1"
  {
    var s := "x >1";
    assert AsciiWord(s[3]) && !AsciiWord(s[2]) && !AsciiWord(s[1]);
    assert EmptyGroupRewrite(s, 4, AsciiWord) == "";
    assert EmptyGroupRewrite(s, 3, AsciiWord) == "1";
  }
}
