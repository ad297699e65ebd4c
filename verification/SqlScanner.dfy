/** The write firewall's keyword scanner: destructive words outside quoted text. */
module SqlScanner {
  import opened Options

  const PROHIBITED := {"alter", "create", "delete", "drop", "grant", "revoke", "truncate", "vacuum"}

  /** Character classes and case folding, whatever the character set makes of them. */
  datatype Letters = Letters(isAlpha: char -> bool, isDigit: char -> bool, lower: string -> string)

  predicate IsQuote(c: char) {
    c == '\'' || c == '"'
  }

  predicate IsWordChar(l: Letters, c: char) {
    !IsQuote(c) && (l.isAlpha(c) || l.isDigit(c) || c == '_' || c == '$')
  }

  predicate IsProhibited(l: Letters, word: string) {
    l.lower(word) in PROHIBITED
  }

  // ---- the grammar ----------------------------------------------------------------------

  /** What follows the end of a literal quoted with `q`; a doubled quote does not end it, an open one has no end. */
  function AfterLiteral(s: string, q: char): (rest: string)
    ensures |rest| <= |s|
  {
    if s == "" then ""
    else if s[0] != q then AfterLiteral(s[1..], q)
    else if |s| > 1 && s[1] == q then AfterLiteral(s[2..], q)
    else s[1..]
  }

  function TakeWord(l: Letters, s: string): string {
    if s != "" && IsWordChar(l, s[0]) then [s[0]] + TakeWord(l, s[1..]) else ""
  }

  function DropWord(l: Letters, s: string): (rest: string)
    ensures |rest| <= |s|
  {
    if s != "" && IsWordChar(l, s[0]) then DropWord(l, s[1..]) else s
  }

  /** The maximal runs of word characters outside literals. */
  function Words(l: Letters, s: string): seq<string>
    decreases |s|
  {
    if s == "" then []
    else if IsQuote(s[0]) then Words(l, AfterLiteral(s[1..], s[0]))
    else if IsWordChar(l, s[0]) then [TakeWord(l, s)] + Words(l, DropWord(l, s[1..]))
    else Words(l, s[1..])
  }

  ghost predicate HasProhibited(l: Letters, words: seq<string>) {
    exists w :: w in words && IsProhibited(l, w)
  }

  // ---- the loop --------------------------------------------------------------------------

  /** The words still to come when `token` is open and `rest` is unread. */
  function Pending(l: Letters, token: string, quote: Option<char>, rest: string): seq<string> {
    match quote
    case Some(q) => Words(l, AfterLiteral(rest, q))
    case None => if token == "" then Words(l, rest) else [token + TakeWord(l, rest)] + Words(l, DropWord(l, rest))
  }

  /** Inside a literal. */
  lemma QuotedStep(l: Letters, rest: string, q: char)
    requires rest != ""
    ensures var here := Pending(l, "", Some(q), rest);
            && (rest[0] != q ==> here == Pending(l, "", Some(q), rest[1..]))
            && (rest[0] == q && |rest| > 1 && rest[1] == q ==> here == Pending(l, "", Some(q), rest[2..]))
            && (rest[0] == q && !(|rest| > 1 && rest[1] == q) ==> here == Pending(l, "", None, rest[1..]))
  {}

  /** A character that opens a literal or stands between words ends the open word. */
  lemma BreakStep(l: Letters, token: string, rest: string)
    requires rest != "" && !IsWordChar(l, rest[0])
    ensures Pending(l, token, None, rest) ==
            (if token == "" then [] else [token])
            + Pending(l, "", if IsQuote(rest[0]) then Some(rest[0]) else None, rest[1..])
  {
    assert token + "" == token;
  }

  lemma WordStep(l: Letters, token: string, rest: string)
    requires rest != "" && IsWordChar(l, rest[0])
    ensures Pending(l, token, None, rest) == Pending(l, token + [rest[0]], None, rest[1..])
  {
    assert "" + [rest[0]] == [rest[0]];
    assert token + ([rest[0]] + TakeWord(l, rest[1..])) == (token + [rest[0]]) + TakeWord(l, rest[1..]);
  }

  lemma LastStep(l: Letters, token: string, quote: Option<char>)
    requires quote.Some? ==> token == ""
    ensures Pending(l, token, quote, "") == if token == "" then [] else [token]
  {
    assert token + "" == token;
  }

  lemma ProhibitedAppend(l: Letters, word: string, words: seq<string>)
    ensures HasProhibited(l, [word] + words) <==> IsProhibited(l, word) || HasProhibited(l, words)
    ensures !HasProhibited(l, [])
  {
    hide IsProhibited;
    assert forall w :: w in [word] + words <==> w == word || w in words;
  }

  method ContainsProhibited(l: Letters, statement: Option<string>) returns (found: bool)
    ensures found <==> statement.Some? && HasProhibited(l, Words(l, statement.value))
  {
    hide Words, AfterLiteral, TakeWord, DropWord, Pending, HasProhibited, IsProhibited;
    if statement.None? {
      return false;
    }
    var s := statement.value;
    var token, quote, i := "", None, 0;
    StartOf(l, s);
    while i < |s|
      invariant 0 <= i <= |s|
      invariant quote.Some? ==> token == ""
      invariant HasProhibited(l, Words(l, s)) <==> HasProhibited(l, Pending(l, token, quote, s[i..]))
    {
      var c, rest := s[i], s[i..];
      assert rest[1..] == s[i + 1..];
      if quote.Some? {
        QuotedStep(l, rest, quote.value);
        if c == quote.value {
          if i + 1 < |s| && s[i + 1] == quote.value {
            assert rest[2..] == s[i + 2..];
            i := i + 2;
            continue;
          }
          quote := None;
        }
        i := i + 1;
        continue;
      }
      if IsQuote(c) {
        EndToken(l, token, rest);
        if token != "" {
          if IsProhibited(l, token) {
            return true;
          }
          token := "";
        }
        quote := Some(c);
        i := i + 1;
        continue;
      }
      if l.isAlpha(c) || l.isDigit(c) || c == '_' || c == '$' {
        WordStep(l, token, rest);
        token := token + [c];
      } else {
        EndToken(l, token, rest);
        if token != "" {
          if IsProhibited(l, token) {
            return true;
          }
          token := "";
        }
      }
      i := i + 1;
    }
    assert s[i..] == "";
    LastStep(l, token, quote);
    ProhibitedAppend(l, token, []);
    assert [token] + [] == [token];
    return token != "" && IsProhibited(l, token);
  }

  lemma StartOf(l: Letters, s: string)
    ensures Pending(l, "", None, s[0..]) == Words(l, s)
  {
    assert s[0..] == s;
  }

  lemma EndToken(l: Letters, token: string, rest: string)
    requires rest != "" && !IsWordChar(l, rest[0])
    ensures HasProhibited(l, Pending(l, token, None, rest)) <==>
            (token != "" && IsProhibited(l, token))
            || HasProhibited(l, Pending(l, "", if IsQuote(rest[0]) then Some(rest[0]) else None, rest[1..]))
  {
    hide Pending, HasProhibited, IsProhibited;
    BreakStep(l, token, rest);
    var after := Pending(l, "", if IsQuote(rest[0]) then Some(rest[0]) else None, rest[1..]);
    ProhibitedAppend(l, token, after);
    assert [] + after == after;
  }

  // ---- literals do not matter ---------------------------------------------------------------

  /** Literal contents: every quote in them is doubled. */
  predicate IsEscaped(c: string, q: char) {
    c == "" || (if c[0] != q then IsEscaped(c[1..], q) else |c| > 1 && c[1] == q && IsEscaped(c[2..], q))
  }

  /** Every literal that begins in the text also ends in it. */
  predicate IsBalanced(s: string)
    decreases |s|
  {
    s == "" || (if IsQuote(s[0]) then Closes(s[1..], s[0]) && IsBalanced(AfterLiteral(s[1..], s[0])) else IsBalanced(s[1..]))
  }

  predicate Closes(s: string, q: char) {
    s != "" && (if s[0] != q then Closes(s[1..], q) else (|s| > 1 && s[1] == q ==> Closes(s[2..], q)))
  }

  lemma {:induction false} LiteralEnds(c: string, q: char, b: string)
    requires IsEscaped(c, q) && (b == "" || b[0] != q)
    ensures AfterLiteral(c + [q] + b, q) == b
  {
    var s := c + [q] + b;
    if c == "" {
      assert s[1..] == b;
    } else if c[0] != q {
      LiteralEnds(c[1..], q, b);
      assert s[1..] == c[1..] + [q] + b;
    } else {
      LiteralEnds(c[2..], q, b);
      assert s[2..] == c[2..] + [q] + b;
    }
  }

  /** A literal that closes is skipped the same way whatever follows, unless a further quote doubles its end. */
  lemma {:induction false} ClosedLiteral(s: string, p: char, t: string)
    requires Closes(s, p)
    ensures AfterLiteral(s, p) != "" || t == "" || t[0] != p ==> AfterLiteral(s + t, p) == AfterLiteral(s, p) + t
    ensures AfterLiteral(s, p) == "" && t != "" && t[0] == p ==> AfterLiteral(s + t, p) == AfterLiteral(t[1..], p)
  {
    var all := s + t;
    if s[0] != p {
      assert all[1..] == s[1..] + t;
      ClosedLiteral(s[1..], p, t);
    } else if |s| > 1 && s[1] == p {
      assert all[2..] == s[2..] + t;
      ClosedLiteral(s[2..], p, t);
    } else {
      assert all[1..] == s[1..] + t;
      if s[1..] == "" && t != "" {
        assert all[2..] == t[1..];
      }
    }
  }

  lemma {:induction false} WordEnds(l: Letters, s: string, t: string)
    requires t == "" || !IsWordChar(l, t[0])
    ensures TakeWord(l, s + t) == TakeWord(l, s) && DropWord(l, s + t) == DropWord(l, s) + t
  {
    if s != "" && IsWordChar(l, s[0]) {
      assert (s + t)[1..] == s[1..] + t;
      WordEnds(l, s[1..], t);
    } else if s == "" {
      assert s + t == t;
    }
  }

  lemma {:induction false} BalancedAfterWord(l: Letters, s: string)
    requires IsBalanced(s)
    ensures IsBalanced(DropWord(l, s))
  {
    if s != "" && IsWordChar(l, s[0]) {
      BalancedAfterWord(l, s[1..]);
    }
  }

  /** A closed literal contributes nothing, whatever it contains: only the text around it decides. */
  lemma {:induction false} LiteralIgnored(l: Letters, a: string, q: char, c: string, b: string)
    requires IsQuote(q) && IsBalanced(a) && IsEscaped(c, q) && (b == "" || b[0] != q)
    ensures Words(l, a + ([q] + c + [q] + b)) == Words(l, a) + Words(l, b)
    decreases |a|
  {
    var t := [q] + c + [q] + b;
    var s := a + t;
    assert t[1..] == c + [q] + b;
    LiteralEnds(c, q, b);
    if a == "" {
      assert s == t;
    } else {
      assert s[1..] == a[1..] + t;
      if IsQuote(a[0]) {
        ClosedLiteral(a[1..], a[0], t);
        if AfterLiteral(a[1..], a[0]) != "" || a[0] != q {
          LiteralIgnored(l, AfterLiteral(a[1..], a[0]), q, c, b);
        }
      } else if IsWordChar(l, a[0]) {
        WordEnds(l, a, t);
        WordEnds(l, a[1..], t);
        BalancedAfterWord(l, a[1..]);
        LiteralIgnored(l, DropWord(l, a[1..]), q, c, b);
      } else {
        LiteralIgnored(l, a[1..], q, c, b);
      }
    }
  }

  /** Replacing the contents of a closed literal never changes the answer. */
  lemma ContentsReplaceable(l: Letters, a: string, q: char, c: string, c': string, b: string)
    requires IsQuote(q) && IsBalanced(a) && IsEscaped(c, q) && IsEscaped(c', q) && (b == "" || b[0] != q)
    ensures HasProhibited(l, Words(l, a + ([q] + c + [q] + b))) <==> HasProhibited(l, Words(l, a + ([q] + c' + [q] + b)))
  {
    hide *;
    LiteralIgnored(l, a, q, c, b);
    LiteralIgnored(l, a, q, c', b);
  }

  lemma {:induction false} LiteralCloses(c: string, q: char)
    requires IsEscaped(c, q)
    ensures Closes(c + [q], q)
  {
    var s := c + [q];
    if c != "" {
      if c[0] != q {
        LiteralCloses(c[1..], q);
        assert s[1..] == c[1..] + [q];
      } else {
        LiteralCloses(c[2..], q);
        assert s[2..] == c[2..] + [q];
      }
    }
  }

  /** A closed literal, and anything balanced behind it, is balanced text. */
  lemma LiteralIsBalanced(q: char, c: string, b: string)
    requires IsQuote(q) && IsEscaped(c, q) && IsBalanced(b) && (b == "" || b[0] != q)
    ensures IsBalanced([q] + c + [q] + b)
  {
    var s := [q] + c + [q] + b;
    assert s[1..] == c + [q] + b;
    LiteralCloses(c, q);
    LiteralEnds(c, q, b);
    ClosesBefore(c + [q], q, b);
  }

  lemma {:induction false} ClosesBefore(s: string, q: char, b: string)
    requires Closes(s, q) && (b == "" || b[0] != q)
    ensures Closes(s + b, q)
  {
    var t := s + b;
    if s[0] != q {
      ClosesBefore(s[1..], q, b);
      assert t[1..] == s[1..] + b;
    } else if |s| > 1 && s[1] == q {
      ClosesBefore(s[2..], q, b);
      assert t[2..] == s[2..] + b;
    }
  }

  lemma {:induction false} QuoteFreeIsEscaped(c: string, q: char)
    requires q !in c
    ensures IsEscaped(c, q)
  {
    if c != "" {
      QuoteFreeIsEscaped(c[1..], q);
    }
  }

  // ---- what the words of a text are -------------------------------------------------------------

  lemma {:induction false} WholeWord(l: Letters, w: string)
    requires forall i :: 0 <= i < |w| ==> IsWordChar(l, w[i])
    ensures TakeWord(l, w) == w && DropWord(l, w) == ""
  {
    if w != "" {
      WholeWord(l, w[1..]);
      assert [w[0]] + w[1..] == w;
    }
  }

  /** Letters, digits, underscores and dollar signs make up one word. */
  lemma OneWord(l: Letters, w: string)
    requires w != "" && forall i :: 0 <= i < |w| ==>
               w[i] != '\'' && w[i] != '"' && (l.isAlpha(w[i]) || l.isDigit(w[i]) || w[i] == '_' || w[i] == '$')
    ensures Words(l, w) == [w]
  {
    WholeWord(l, w);
    WholeWord(l, w[1..]);
  }

  /** A character that is neither a quote nor part of a word. */
  predicate IsSeparator(l: Letters, c: char) {
    c != '\'' && c != '"' && !(l.isAlpha(c) || l.isDigit(c) || c == '_' || c == '$')
  }

  /** Any other character but a quote separates words: what stands before it and behind it is scanned on its own. */
  lemma {:induction false} SeparatorSplits(l: Letters, a: string, c: char, b: string)
    requires IsBalanced(a) && IsSeparator(l, c)
    ensures Words(l, a + ([c] + b)) == Words(l, a) + Words(l, b)
    decreases |a|
  {
    var t := [c] + b;
    var s := a + t;
    assert t[1..] == b;
    if a == "" {
      assert s == t;
    } else {
      assert s[1..] == a[1..] + t;
      if IsQuote(a[0]) {
        ClosedLiteral(a[1..], a[0], t);
        SeparatorSplits(l, AfterLiteral(a[1..], a[0]), c, b);
      } else if IsWordChar(l, a[0]) {
        WordEnds(l, a, t);
        WordEnds(l, a[1..], t);
        BalancedAfterWord(l, a[1..]);
        SeparatorSplits(l, DropWord(l, a[1..]), c, b);
      } else {
        SeparatorSplits(l, a[1..], c, b);
      }
    }
  }

  lemma {:induction false} NeverCloses(c: string, q: char)
    requires q !in c
    ensures AfterLiteral(c, q) == ""
  {
    if c != "" {
      NeverCloses(c[1..], q);
    }
  }

  /** A literal that is never closed hides all that follows, here after a separator. */
  lemma OpenLiteralHides(l: Letters, a: string, c: char, q: char, hidden: string)
    requires IsBalanced(a) && IsSeparator(l, c)
    requires (q == '\'' || q == '"') && q !in hidden
    ensures Words(l, a + ([c] + ([q] + hidden))) == Words(l, a)
  {
    SeparatorSplits(l, a, c, [q] + hidden);
    NeverCloses(hidden, q);
    assert ([q] + hidden)[1..] == hidden;
    assert Words(l, [q] + hidden) == [];
  }

  /** The words that are prohibited, in any case. */
  lemma ProhibitedAre(l: Letters, word: string)
    ensures IsProhibited(l, word) <==>
            l.lower(word) in ["alter", "create", "delete", "drop", "grant", "revoke", "truncate", "vacuum"]
  {}

  /** A prohibited word between separators is found, whatever stands around it. */
  lemma ProhibitedIsFound(l: Letters, a: string, c: char, w: string, d: char, b: string)
    requires IsBalanced(a) && IsSeparator(l, c) && IsSeparator(l, d) && w != ""
    requires forall i :: 0 <= i < |w| ==>
               w[i] != '\'' && w[i] != '"' && (l.isAlpha(w[i]) || l.isDigit(w[i]) || w[i] == '_' || w[i] == '$')
    requires l.lower(w) in ["alter", "create", "delete", "drop", "grant", "revoke", "truncate", "vacuum"]
    ensures HasProhibited(l, Words(l, a + ([c] + (w + ([d] + b)))))
  {
    PlainIsBalanced(w);
    OneWord(l, w);
    ProhibitedAre(l, w);
    hide *;
    SeparatorSplits(l, a, c, w + ([d] + b));
    SeparatorSplits(l, w, d, b);
    FoundAmong(l, Words(l, a), w, Words(l, b));
  }

  lemma FoundAmong(l: Letters, before: seq<string>, w: string, after: seq<string>)
    requires IsProhibited(l, w)
    ensures HasProhibited(l, before + ([w] + after))
  {
    assert (before + ([w] + after))[|before|] == w;
  }

  lemma {:induction false} PlainIsBalanced(w: string)
    requires forall i :: 0 <= i < |w| ==> w[i] != '\'' && w[i] != '"'
    ensures IsBalanced(w)
  {
    if w != "" {
      PlainIsBalanced(w[1..]);
    }
  }
}
