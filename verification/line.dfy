/** Building the line to append (the part of `main` between parsing and
    target selection): the line starts at the first token that does not
    begin with a dash, and runs to the end of the token list; an `alias`
    line without quotes gets its value quoted.
 */
module LineBuild {
  import opened Faults
  import opened Text

  /** A token that `main` accepts as the start of the line. */
  predicate Undashed(a: string) {
    !StartsWith(a, "-")
  }

  /** `"\n"` followed by the space-joined tokens from the first undashed
      one to the end; `None` when every token begins with a dash, which
      makes the program show its help. */
  function AssembleLine(tokens: seq<string>): (r: Option<string>)
    ensures r.None? <==> forall k :: 0 <= k < |tokens| ==> StartsWith(tokens[k], "-")
    ensures forall i :: IsFirst(tokens, Undashed, i) ==> r == Some("\n" + Join(" ", tokens[i..]))
  {
    match FirstIndex(tokens, Undashed)
    case None => None
    case Some(i) => Some("\n" + Join(" ", tokens[i..]))
  }

  /** When no token holds a space, the line can be cut back into the tokens
      it was built from: the first undashed token and everything after it,
      dashed tokens included. */
  lemma LineRecoversTokens(tokens: seq<string>)
    requires AssembleLine(tokens).Some?
    requires forall k :: 0 <= k < |tokens| ==> ' ' !in tokens[k]
    ensures AssembleLine(tokens).value[0] == '\n'
    ensures exists i :: IsFirst(tokens, Undashed, i)
                     && Split(AssembleLine(tokens).value[1..], ' ') == tokens[i..]
  {
    var i := FirstIndex(tokens, Undashed).value;
    var line := AssembleLine(tokens).value;
    assert line[1..] == Join(" ", tokens[i..]);
    SplitJoin(tokens[i..], ' ');
    assert Split(line[1..], ' ') == tokens[i..];
  }

  /** The auto-quoting rule fires: the line mentions `alias` and holds no
      double quote. */
  predicate QuoteApplies(line: string) {
    Contains(line, "alias") && '"' !in line
  }

  /** Where the opening quote goes when the line has no `=`. */
  const FallbackQuoteOffset: nat := 1992 + 1

  /** `s` with `c` inserted before position `at` (`String::insert`). */
  function Insert(s: string, at: nat, c: char): string
    requires at <= |s|
  {
    s[..at] + [c] + s[at..]
  }

  /** The two insertions of the alias helper: a quote before position `at`
      and one at the very end. */
  function QuoteAt(line: string, at: nat): (r: string)
    requires at <= |line|
    ensures r == line[..at] + "\"" + line[at..] + "\""
  {
    var withOpening := Insert(line, at, '"');
    assert withOpening[..|withOpening|] == withOpening;
    Insert(withOpening, |withOpening|, '"')
  }

  /** The alias helper: a quote after the first `=` (or at the fixed
      fallback offset when there is none) and one at the end.  Inserting
      past the end of the line is the panic of `String::insert`. */
  function AutoQuote(line: string): (r: Result<string>)
    ensures !QuoteApplies(line) ==> r == Ok(line)
    ensures forall p :: QuoteApplies(line) && 0 <= p < |line| && line[p] == '=' && '=' !in line[..p] ==>
              r == Ok(line[..p + 1] + "\"" + line[p + 1..] + "\"")
    ensures QuoteApplies(line) && '=' !in line ==>
              && (r.Err? <==> |line| < FallbackQuoteOffset)
              && (r.Ok? ==> r.value == line[..FallbackQuoteOffset] + "\"" + line[FallbackQuoteOffset..] + "\"")
    ensures r.Err? ==> r.fault == QuoteOffsetOutOfRange(FallbackQuoteOffset, |line|)
  {
    if !QuoteApplies(line) then Ok(line)
    else match IndexOf(line, '=')
      case Some(e) =>
        assert forall p :: 0 <= p < |line| && line[p] == '=' && '=' !in line[..p] ==> p == e by {
          forall p | 0 <= p < |line| && line[p] == '=' && '=' !in line[..p] {
            IndexOfFirst(line, '=', p);
          }
        }
        Ok(QuoteAt(line, e + 1))
      case None =>
        if FallbackQuoteOffset > |line| then Err(QuoteOffsetOutOfRange(FallbackQuoteOffset, |line|))
        else Ok(QuoteAt(line, FallbackQuoteOffset))
  }

  /** Quoting a quote-free line adds exactly two quotes. */
  lemma {:induction false} QuoteAtCount(line: string, at: nat)
    requires at <= |line| && '"' !in line
    ensures CountChar(QuoteAt(line, at), '"') == 2
  {
    var q: string := "\"";
    var a, b := line[..at], line[at..];
    assert '"' !in a && '"' !in b;
    assert CountChar(q, '"') == 1;
    CountCharAbsent(a, '"');
    CountCharAbsent(b, '"');
    CountCharConcat(a, q, '"');
    CountCharConcat(a + q, b, '"');
    CountCharConcat(a + q + b, q, '"');
  }

  /** Erasing the quotes of a quoted quote-free line gives the line back. */
  lemma {:induction false} QuoteAtErase(line: string, at: nat)
    requires at <= |line| && '"' !in line
    ensures Erase(QuoteAt(line, at), '"') == line
  {
    var q: string := "\"";
    var a, b := line[..at], line[at..];
    assert '"' !in a && '"' !in b;
    assert Erase(a + q, '"') == a by {
      EraseAbsent(a, '"');
      EraseConcat(a, q, '"');
      assert Erase(q, '"') == "";
      assert a + "" == a;
    }
    assert Erase(a + q + b, '"') == a + b by {
      EraseAbsent(b, '"');
      EraseConcat(a + q, b, '"');
    }
    assert Erase(a + q + b + q, '"') == a + b by {
      EraseConcat(a + q + b, q, '"');
      assert Erase(q, '"') == "";
      assert (a + b) + "" == a + b;
    }
    assert line == a + b;
  }

  /** Whenever quoting succeeds on a line it applies to, the result is the
      line with exactly two quotes added, the last one at the end: erasing
      the quotes gives the line back. */
  lemma QuotedShape(line: string)
    requires QuoteApplies(line) && AutoQuote(line).Ok?
    ensures |AutoQuote(line).value| == |line| + 2
    ensures CountChar(AutoQuote(line).value, '"') == 2
    ensures AutoQuote(line).value[|line| + 1] == '"'
    ensures Erase(AutoQuote(line).value, '"') == line
  {
    var at := match IndexOf(line, '=') case Some(p) => p + 1 case None => FallbackQuoteOffset;
    assert AutoQuote(line) == Ok(QuoteAt(line, at));
    QuoteAtCount(line, at);
    QuoteAtErase(line, at);
  }

  /** The usual case: `alias ll=ls` becomes `alias ll="ls"`. */
  lemma ExampleAliasQuoted()
    ensures AutoQuote("\nalias ll=ls") == Ok("\nalias ll=\"ls\"")
  {
    AliasQuotedAt("\nalias ll=ls");
  }

  /** The same for any line equal to `alias ll=ls`, with the steps spelled out. */
  lemma AliasQuotedAt(line: string)
    requires line == "\nalias ll=ls"
    ensures AutoQuote(line) == Ok("\nalias ll=\"ls\"")
  {
    assert OccursAt(line, "alias", 1);
    ContainsIff(line, "alias");
    assert QuoteApplies(line);
    assert line[9] == '=' && '=' !in line[..9];
    assert line[..10] == "\nalias ll=";
    assert line[10..] == "ls";
    assert AutoQuote(line) == Ok("\nalias ll=" + "\"" + "ls" + "\"");
    assert "\nalias ll=" + "\"" + "ls" + "\"" == "\nalias ll=\"ls\"";
  }
}
