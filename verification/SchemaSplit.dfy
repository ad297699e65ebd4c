/** Quote- and parenthesis-aware scanning of index definitions: the matching parenthesis, the top-level split and the
    removal of enclosing parentheses. */
module SchemaSplit {
  import opened Options

  /** The nesting depth and whether the scan is inside a quoted literal. */
  datatype Scan = Scan(depth: int, quoted: bool)

  const TOP := Scan(0, false)

  /** One character. A doubled quote leaves a literal and enters it again, so it needs no case of its own. */
  function Step(sc: Scan, c: char): Scan {
    if c == '\'' then sc.(quoted := !sc.quoted)
    else if sc.quoted then sc
    else if c == '(' then sc.(depth := sc.depth + 1)
    else if c == ')' then sc.(depth := sc.depth - 1)
    else sc
  }

  function From(sc: Scan, s: string): Scan {
    if s == "" then sc else Step(From(sc, s[..|s| - 1]), s[|s| - 1])
  }

  function State(s: string): Scan {
    From(TOP, s)
  }

  /** The scan from `open` up to, and not including, `i`. */
  function Between(s: string, open: nat, i: nat): Scan {
    if open <= i <= |s| then State(s[open..i]) else TOP
  }

  lemma StepBetween(s: string, open: nat, i: nat)
    requires open <= i < |s|
    ensures Between(s, open, i + 1) == Step(Between(s, open, i), s[i]) && Between(s, open, open) == TOP
  {
    assert s[open..i + 1][..i - open] == s[open..i];
  }

  lemma {:induction false} FromAppend(sc: Scan, a: string, b: string)
    ensures From(sc, a + b) == From(From(sc, a), b)
  {
    if b == "" {
      assert a + b == a;
    } else {
      FromAppend(sc, a, b[..|b| - 1]);
      assert (a + b)[..|a + b| - 1] == a + b[..|b| - 1];
    }
  }

  /** The number of places with this character. */
  function Number(s: string, c: char): nat {
    |set i | 0 <= i < |s| && s[i] == c|
  }

  /** Outside literals, where an even number of quotes stands before. */
  function Outside(s: string, c: char): set<int> {
    set i | 0 <= i < |s| && s[i] == c && Number(s[..i], '\'') % 2 == 0
  }

  lemma NumberExtend(s: string, d: char, c: char)
    ensures Number(s + [d], c) == Number(s, c) + (if d == c then 1 else 0)
  {
    var before, after := set i | 0 <= i < |s| && s[i] == c, set i | 0 <= i < |s + [d]| && (s + [d])[i] == c;
    assert after == if d == c then before + {|s|} else before;
  }

  lemma OutsideExtend(s: string, d: char, c: char)
    ensures |Outside(s + [d], c)| == |Outside(s, c)| + (if d == c && Number(s, '\'') % 2 == 0 then 1 else 0)
  {
    hide Number;
    var all := s + [d];
    assert all[..|s|] == s;
    forall i | 0 <= i < |s| ensures all[..i] == s[..i] {}
    assert Outside(all, c) == if d == c && Number(s, '\'') % 2 == 0 then Outside(s, c) + {|s|} else Outside(s, c);
  }

  /** What the scan knows: it is inside a literal after an odd number of quotes, and the depth is the number of opening
      less that of closing parentheses outside literals. */
  lemma {:induction false} StateIs(s: string)
    ensures State(s).quoted <==> Number(s, '\'') % 2 == 1
    ensures State(s).depth == |Outside(s, '(')| - |Outside(s, ')')|
  {
    if s != "" {
      var a, d := s[..|s| - 1], s[|s| - 1];
      assert s == a + [d];
      StateIs(a);
      NumberExtend(a, d, '\'');
      OutsideExtend(a, d, '(');
      OutsideExtend(a, d, ')');
      assert State(s) == Step(State(a), d);
      hide Number, Outside, State, From;
    }
  }

  // ---- the matching parenthesis --------------------------------------------------------------

  /** An unquoted closing parenthesis that brings the depth, counted from `open`, to zero. */
  predicate ClosesAt(s: string, open: nat, i: nat) {
    open <= i < |s| && s[i] == ')' && !Between(s, open, i).quoted && Between(s, open, i + 1).depth == 0
  }

  method MatchingParen(s: string, open: nat) returns (close: Option<nat>)
    ensures close.Some? ==> ClosesAt(s, open, close.value) && forall j: nat :: j < close.value ==> !ClosesAt(s, open, j)
    ensures close.None? ==> forall j: nat :: !ClosesAt(s, open, j)
  {
    hide Between;
    if open < |s| {
      StepBetween(s, open, open);
    }
    var depth, quoted, i := 0, false, open;
    while i < |s|
      invariant open <= i
      invariant open <= i <= |s| && i > open ==> Between(s, open, i) == Scan(depth, quoted)
      invariant i == open ==> depth == 0 && !quoted
      invariant open < |s| ==> i <= |s|
      invariant forall j: nat :: j < i ==> !ClosesAt(s, open, j)
    {
      StepBetween(s, open, i);
      var c := s[i];
      if c == '\'' {
        if quoted && i + 1 < |s| && s[i + 1] == '\'' {
          StepBetween(s, open, i + 1);
          i := i + 2;
          continue;
        }
        quoted := !quoted;
      } else if !quoted {
        if c == '(' {
          depth := depth + 1;
        } else if c == ')' {
          depth := depth - 1;
          if depth == 0 {
            return Some(i);
          }
        }
      }
      i := i + 1;
    }
    return None;
  }

  /** From an opening parenthesis, the match is the first place where the depth is back at zero. */
  lemma {:induction false} InsideIsDeep(s: string, open: nat, i: nat)
    requires open < i <= |s| && s[open] == '(' && forall j: nat :: j < i ==> !ClosesAt(s, open, j)
    ensures Between(s, open, i).depth >= 1
  {
    hide Between;
    StepBetween(s, open, i - 1);
    if i > open + 1 {
      InsideIsDeep(s, open, i - 1);
      assert !ClosesAt(s, open, i - 1);
    } else {
      StepBetween(s, open, open);
    }
  }

  // ---- the split -------------------------------------------------------------------------------

  predicate TopComma(s: string, i: nat)
    requires i < |s|
  {
    s[i] == ',' && State(s[..i]) == TOP
  }

  function Split(s: string): (pieces: seq<string>)
    ensures pieces != []
  {
    if s == "" then [""]
    else
      var n := |s| - 1;
      var before := Split(s[..n]);
      if TopComma(s, n) then before + [""] else before[..|before| - 1] + [before[|before| - 1] + [s[n]]]
  }

  function Join(pieces: seq<string>): string
    requires pieces != []
  {
    if |pieces| == 1 then pieces[0] else Join(pieces[..|pieces| - 1]) + "," + pieces[|pieces| - 1]
  }

  lemma JoinLast(init: seq<string>, last: string)
    ensures Join(init + [last]) == if init == [] then last else Join(init) + "," + last
  {
    assert (init + [last])[..|init|] == init;
  }

  lemma SplitStep(s: string, i: nat)
    requires i < |s|
    ensures var before := Split(s[..i]);
            Split(s[..i + 1]) ==
            if TopComma(s, i) then before + [""] else before[..|before| - 1] + [before[|before| - 1] + [s[i]]]
  {
    assert s[..i + 1][..i] == s[..i];
  }

  method SplitTopLevel(s: string) returns (pieces: seq<string>)
    ensures pieces == Split(s)
  {
    hide Split, State, Between;
    pieces := [];
    var start, depth, quoted, i := 0, 0, false, 0;
    SplitStart(s);
    while i < |s|
      invariant 0 <= start <= i <= |s|
      invariant Split(s[..i]) == pieces + [s[start..i]]
      invariant State(s[..i]) == Scan(depth, quoted)
    {
      SplitStep(s, i);
      StateStep(s, i);
      var c := s[i];
      assert s[start..i + 1] == s[start..i] + [s[i]];
      assert (pieces + [s[start..i]])[..|pieces|] == pieces;
      if c == '\'' {
        if quoted && i + 1 < |s| && s[i + 1] == '\'' {
          SplitStep(s, i + 1);
          StateStep(s, i + 1);
          assert s[start..i + 2] == s[start..i + 1] + [s[i + 1]];
          assert (pieces + [s[start..i + 1]])[..|pieces|] == pieces;
          i := i + 2;
          continue;
        }
        quoted := !quoted;
      } else if !quoted {
        if c == '(' {
          depth := depth + 1;
        } else if c == ')' {
          depth := depth - 1;
        } else if c == ',' && depth == 0 {
          pieces := pieces + [s[start..i]];
          start := i + 1;
          assert s[start..i + 1] == "";
        }
      }
      i := i + 1;
    }
    assert s[..i] == s && s[start..i] == s[start..];
    pieces := pieces + [s[start..]];
  }

  lemma SplitStart(s: string)
    ensures Split(s[..0]) == [s[0..0]] && State(s[..0]) == TOP
  {}

  lemma StateStep(s: string, i: nat)
    requires i < |s|
    ensures State(s[..i + 1]) == Step(State(s[..i]), s[i])
  {
    assert s[..i + 1][..i] == s[..i];
  }

  /** One more character: a top-level comma starts a new piece, anything else joins the last one. */
  function Extended(pieces: seq<string>, comma: bool, c: char): seq<string>
    requires pieces != []
  {
    if comma then pieces + [""] else pieces[..|pieces| - 1] + [pieces[|pieces| - 1] + [c]]
  }

  lemma SplitExtend(s: string, c: char)
    ensures Split(s + [c]) == Extended(Split(s), c == ',' && State(s) == TOP, c) && State(s + [c]) == Step(State(s), c)
  {
    assert (s + [c])[..|s|] == s;
  }

  lemma JoinExtended(pieces: seq<string>, comma: bool, c: char)
    requires pieces != [] && (comma ==> c == ',')
    ensures Join(Extended(pieces, comma, c)) == Join(pieces) + [c]
  {
    hide Join;
    var init, last := pieces[..|pieces| - 1], pieces[|pieces| - 1];
    assert pieces == init + [last];
    JoinLast(init, last);
    JoinLast(init, last + [c]);
    JoinLast(pieces, "");
  }

  /** Joining the pieces restores the text. */
  lemma {:induction false} JoinOfSplit(s: string)
    ensures Join(Split(s)) == s
  {
    if s != "" {
      var a, c := s[..|s| - 1], s[|s| - 1];
      JoinOfSplit(a);
      SplitExtend(a, c);
      JoinExtended(Split(a), c == ',' && State(a) == TOP, c);
      hide Split, Join, State, Extended;
      assert s == a + [c];
    }
  }

  /** A piece that splits no further. */
  predicate Whole(p: string) {
    Split(p) == [p]
  }

  /** Every piece is whole, and every piece but the last ends outside literals and parentheses. */
  ghost predicate IsPieces(pieces: seq<string>) {
    && pieces != []
    && (forall i :: 0 <= i < |pieces| ==> Whole(pieces[i]))
    && (forall i :: 0 <= i < |pieces| - 1 ==> State(pieces[i]) == TOP)
  }

  lemma WholeExtend(p: string, c: char)
    requires Whole(p) && !(c == ',' && State(p) == TOP)
    ensures Whole(p + [c])
  {
    SplitExtend(p, c);
  }

  lemma WholeEmpty()
    ensures Whole("") && State("") == TOP
  {}

  lemma PiecesExtend(pieces: seq<string>, comma: bool, c: char)
    requires IsPieces(pieces) && comma == (c == ',' && State(pieces[|pieces| - 1]) == TOP)
    ensures IsPieces(Extended(pieces, comma, c))
    ensures comma ==> State(Extended(pieces, comma, c)[|pieces|]) == TOP
    ensures !comma ==> State(Extended(pieces, comma, c)[|pieces| - 1]) == Step(State(pieces[|pieces| - 1]), c)
  {
    hide Whole, State;
    var last := pieces[|pieces| - 1];
    assert Whole(last);
    WholeEmpty();
    if !comma {
      WholeExtend(last, c);
      SplitExtend(last, c);
    }
  }

  /** The scan of the text is the scan of its last piece. */
  lemma {:induction false} SplitIsPieces(s: string)
    ensures IsPieces(Split(s)) && State(s) == State(Split(s)[|Split(s)| - 1])
  {
    if s == "" {
      WholeEmpty();
    } else {
      hide Split, State, IsPieces;
      var a, c := s[..|s| - 1], s[|s| - 1];
      assert s == a + [c];
      SplitIsPieces(a);
      SplitExtend(a, c);
      assert Step(TOP, ',') == TOP;
      PiecesExtend(Split(a), c == ',' && State(a) == TOP, c);
    }
  }

  /** Splitting a piece again yields just that piece. */
  lemma ResplitPiece(s: string, i: nat)
    requires i < |Split(s)|
    ensures Split(Split(s)[i]) == [Split(s)[i]]
  {
    SplitIsPieces(s);
    assert Whole(Split(s)[i]);
  }

  /** A comma after a text that ends at the top level separates the splits of both sides. */
  lemma {:induction false} SplitAtComma(a: string, b: string)
    requires State(a) == TOP
    ensures Split(a + "," + b) == Split(a) + Split(b) && State(a + "," + b) == State(b)
  {
    hide *;
    if b == "" {
      SplitExtend(a, ',');
      SplitEmpty();
      ExtendedOver(Split(a), [""], true, ',');
      assert a + "," + b == a + [','];
    } else {
      var d, c := b[..|b| - 1], b[|b| - 1];
      SplitAtComma(a, d);
      SplitExtend(a + "," + d, c);
      SplitExtend(d, c);
      ExtendedOver(Split(a), Split(d), c == ',' && State(d) == TOP, c);
      assert a + "," + d + [c] == a + "," + b && b == d + [c];
    }
  }

  lemma SplitEmpty()
    ensures Split("") == [""] && State("") == TOP && Step(TOP, ',') == TOP
  {}

  lemma ExtendedOver(a: seq<string>, b: seq<string>, comma: bool, c: char)
    requires a != [] && b != []
    ensures Extended(a + b, comma, c) == a + Extended(b, comma, c) && Extended(a, true, c) == a + [""]
  {}

  /** Splitting inverts joining. */
  lemma {:induction false} SplitOfJoin(pieces: seq<string>)
    requires IsPieces(pieces)
    ensures Split(Join(pieces)) == pieces && State(Join(pieces)) == State(pieces[|pieces| - 1])
  {
    if |pieces| > 1 {
      var init, last := pieces[..|pieces| - 1], pieces[|pieces| - 1];
      SplitOfJoin(init);
      assert Whole(last) && State(init[|init| - 1]) == TOP;
      SplitAtComma(Join(init), last);
      assert pieces == init + [last];
    } else {
      assert Whole(pieces[0]);
    }
  }

  // ---- enclosing parentheses -----------------------------------------------------------------------

  function StripLeft(isSpace: char -> bool, s: string): (r: string)
    ensures |r| <= |s| && (r != "" ==> !isSpace(r[0]) && r[|r| - 1] == s[|s| - 1])
  {
    if s != "" && isSpace(s[0]) then StripLeft(isSpace, s[1..]) else s
  }

  function StripRight(isSpace: char -> bool, s: string): (r: string)
    ensures |r| <= |s| && (r != "" ==> !isSpace(r[|r| - 1]) && r[0] == s[0])
  {
    if s != "" && isSpace(s[|s| - 1]) then StripRight(isSpace, s[..|s| - 1]) else s
  }

  function Strip(isSpace: char -> bool, s: string): (r: string)
    ensures |r| <= |s| && (r != "" ==> !isSpace(r[0]) && !isSpace(r[|r| - 1]))
  {
    StripRight(isSpace, StripLeft(isSpace, s))
  }

  lemma Stripped(isSpace: char -> bool, s: string)
    requires s != "" ==> !isSpace(s[0]) && !isSpace(s[|s| - 1])
    ensures Strip(isSpace, s) == s
  {}

  /** One pair of parentheses encloses the whole text. */
  ghost predicate Wrapped(s: string) {
    && |s| >= 2 && s[0] == '(' && s[|s| - 1] == ')'
    && ClosesAt(s, 0, |s| - 1) && forall j: nat :: j < |s| - 1 ==> !ClosesAt(s, 0, j)
  }

  ghost function Peel(isSpace: char -> bool, s: string): string
    decreases |s|
  {
    if Wrapped(s) then Peel(isSpace, Strip(isSpace, s[1..|s| - 1])) else s
  }

  /** All enclosing pairs removed. */
  ghost function Unwrapped(isSpace: char -> bool, s: string): string {
    Peel(isSpace, Strip(isSpace, s))
  }

  method UnwrapParentheses(isSpace: char -> bool, s: string) returns (result: string)
    ensures result == Unwrapped(isSpace, s)
  {
    hide ClosesAt, Strip;
    result := Strip(isSpace, s);
    while result != "" && result[0] == '(' && result[|result| - 1] == ')'
      invariant Peel(isSpace, result) == Unwrapped(isSpace, s)
      decreases |result|
    {
      var close := MatchingParen(result, 0);
      if close != Some(|result| - 1) {
        NotWrapped(result, close);
        break;
      }
      assert Wrapped(result);
      result := Strip(isSpace, result[1..|result| - 1]);
    }
  }

  lemma NotWrapped(s: string, close: Option<nat>)
    requires close != Some(|s| - 1)
    requires close.Some? ==> ClosesAt(s, 0, close.value)
    requires close.None? ==> forall j: nat :: !ClosesAt(s, 0, j)
    ensures !Wrapped(s)
  {
    hide Between;
  }

  /** What is left is stripped and no pair encloses it. */
  lemma {:induction false} PeelDone(isSpace: char -> bool, s: string)
    requires s != "" ==> !isSpace(s[0]) && !isSpace(s[|s| - 1])
    ensures var r := Peel(isSpace, s); !Wrapped(r) && (r != "" ==> !isSpace(r[0]) && !isSpace(r[|r| - 1]))
    decreases |s|
  {
    hide Wrapped;
    if Wrapped(s) {
      assert |s| >= 2 by {
        WrappedLength(s);
      }
      PeelDone(isSpace, Strip(isSpace, s[1..|s| - 1]));
    }
  }

  lemma WrappedLength(s: string)
    requires Wrapped(s)
    ensures |s| >= 2
  {}

  /** Unwrapping twice is unwrapping once. */
  lemma UnwrapTwice(isSpace: char -> bool, s: string)
    ensures Unwrapped(isSpace, Unwrapped(isSpace, s)) == Unwrapped(isSpace, s)
  {
    var r := Unwrapped(isSpace, s);
    PeelDone(isSpace, Strip(isSpace, s));
    Stripped(isSpace, r);
  }

  /** Parentheses and literals close in order. */
  ghost predicate IsNested(s: string) {
    State(s) == TOP && forall i :: 0 <= i <= |s| ==> State(s[..i]).depth >= 0
  }

  lemma {:induction false} FromDeeper(sc: Scan, d: int, s: string)
    ensures From(sc.(depth := sc.depth + d), s) == From(sc, s).(depth := From(sc, s).depth + d)
  {
    if s != "" {
      FromDeeper(sc, d, s[..|s| - 1]);
    }
  }

  lemma WrappedState(s: string, i: nat)
    requires i <= |s|
    ensures var w := "(" + s + ")"; Between(w, 0, i + 1) == State(s[..i]).(depth := State(s[..i]).depth + 1)
  {
    var w := "(" + s + ")";
    assert w[0..i + 1] == "(" + s[..i];
    FromAppend(TOP, "(", s[..i]);
    assert "("[..0] == "";
    assert From(TOP, "(") == Step(TOP, '(');
    FromDeeper(TOP, 1, s[..i]);
  }

  /** Enclosing well-nested text in parentheses makes no difference. */
  lemma WrapIsUndone(isSpace: char -> bool, s: string)
    requires IsNested(s) && !isSpace('(') && !isSpace(')')
    ensures Unwrapped(isSpace, "(" + s + ")") == Unwrapped(isSpace, s)
  {
    var w := "(" + s + ")";
    Stripped(isSpace, w);
    WrapIsWrapped(s);
    assert w[1..|w| - 1] == s;
    hide Wrapped;
  }

  lemma WrapIsWrapped(s: string)
    requires IsNested(s)
    ensures Wrapped("(" + s + ")")
  {
    hide Between, State;
    var w := "(" + s + ")";
    WrappedState(s, |s|);
    assert s[..|s|] == s;
    StepBetween(w, 0, |w| - 1);
    forall j: nat | j < |w| - 1 ensures !ClosesAt(w, 0, j) {
      WrappedState(s, j);
    }
  }
}
