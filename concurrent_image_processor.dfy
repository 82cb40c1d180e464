/**
 * `ConcurrentImageProcessor`: the decisions the console front end takes on
 * one line of input. The `Scanner` retry loops around them are not
 * modelled: each function below says whether a line is accepted and what
 * it yields, `None` standing for "ask again".
 */
module ConcurrentImageProcessor {

  import opened Int32
  import opened Model
  import opened JavaText

  const MIN_MENU_CHOICE: int := 0
  const MAX_MENU_CHOICE: int := 7

  /** `getDefaultFilters()` */
  const DEFAULT_FILTERS: seq<FilterType> := [Grayscale, Blur]

  // ------------------------------------------------------ filter selection

  /** What one comma-separated piece of the selection says, once trimmed. */
  datatype Token = Blank | NotANumber | Index(i: int)

  /** A blank piece is skipped; otherwise `Integer.parseInt(trimmed) - 1` in 32-bit arithmetic, or a parse failure. */
  function Classify(piece: string): (token: Token)
    ensures token != Blank <==> Trim(piece) != []
    ensures token.Index? ==> MIN <= token.i <= MAX
  {
    var trimmed := Trim(piece);
    if trimmed == [] then Blank
    else match ParseInt(trimmed)
      case None => NotANumber
      case Some(v) => Index(Wrap(v - 1))
  }

  /** A piece is skipped exactly when it holds nothing but characters up to U+0020. */
  lemma ClassifyBlank(piece: string)
    ensures Classify(piece) == Blank <==> forall i :: 0 <= i < |piece| ==> IsTrimmed(piece[i])
  {
  }

  /**
   * A piece that reads as the printed number `n`, blanks around it allowed,
   * selects index `n - 1` in 32-bit arithmetic.
   */
  lemma ClassifyPrinted(piece: string, n: JInt)
    requires Trim(piece) == IntToString(n)
    ensures Classify(piece) == Index(Wrap(n - 1))
  {
    ParseIntToString(n);
    var printed := IntToString(n);
    assert printed != [] by {
      if n < 0 { assert printed[0] == '-'; }
    }
    assert ParseInt(Trim(piece)) == Some(n);
  }

  /** A piece whose first visible character is a letter is not a number. */
  lemma ClassifyLetter(piece: string)
    requires Trim(piece) != [] && 'a' <= Trim(piece)[0] <= 'z'
    ensures Classify(piece) == NotANumber
  {
  }

  /** The tokens of the pieces, in order. */
  function Classified(pieces: seq<string>): (tokens: seq<Token>)
    ensures |tokens| == |pieces|
  {
    if |pieces| == 0 then [] else Classified(pieces[..|pieces| - 1]) + [Classify(pieces[|pieces| - 1])]
  }

  /** One more piece adds its token at the end. */
  lemma ClassifiedSnoc(pieces: seq<string>, i: nat)
    requires i < |pieces|
    ensures Classified(pieces[..i + 1]) == Classified(pieces[..i]) + [Classify(pieces[i])]
  {
    assert pieces[..i + 1][..i] == pieces[..i];
  }

  /** The tokens of a prefix of the pieces are that prefix of the tokens. */
  lemma {:induction false} ClassifiedPrefix(pieces: seq<string>, i: nat)
    requires i <= |pieces|
    ensures Classified(pieces)[..i] == Classified(pieces[..i])
  {
    var n := |pieces|;
    if i < n {
      assert pieces[..n - 1][..i] == pieces[..i];
      ClassifiedPrefix(pieces[..n - 1], i);
    } else {
      assert pieces[..i] == pieces;
    }
  }

  /**
   * The set of indices the parse loop collects from `tokens` for a table of
   * `count` filters, or `None` when a `NumberFormatException` ends it.
   */
  function SelectedIndices(tokens: seq<Token>, count: nat): Option<set<int>>
  {
    if tokens == [] then Some({})
    else Step(SelectedIndices(tokens[..|tokens| - 1], count), tokens[|tokens| - 1], count)
  }

  /** One turn of the parse loop. */
  function Step(acc: Option<set<int>>, token: Token, count: nat): Option<set<int>>
  {
    if acc.None? then None
    else match token
      case Blank => acc
      case NotANumber => None
      case Index(i) => if 0 <= i < count then Some(acc.value + {i}) else acc
  }

  /** One more token is one more turn of the loop. */
  lemma SelectedIndicesSnoc(tokens: seq<Token>, token: Token, count: nat)
    ensures SelectedIndices(tokens + [token], count) == Step(SelectedIndices(tokens, count), token, count)
  {
    assert (tokens + [token])[..|tokens|] == tokens;
  }

  /** The loop fails exactly when some piece is not blank and not a number. */
  lemma {:induction false} SelectedIndicesFails(tokens: seq<Token>, count: nat)
    ensures SelectedIndices(tokens, count).None? <==> NotANumber in tokens
  {
    if tokens != [] {
      var n := |tokens|;
      SelectedIndicesFails(tokens[..n - 1], count);
      assert tokens == tokens[..n - 1] + [tokens[n - 1]];
    }
  }

  /**
   * When the loop does not fail, it collects exactly the in-range indices
   * `n - 1` of the pieces that read as a number `n`.
   */
  lemma {:induction false} SelectedIndicesMembers(tokens: seq<Token>, count: nat, i: int)
    requires SelectedIndices(tokens, count).Some?
    ensures i in SelectedIndices(tokens, count).value <==> 0 <= i < count && Index(i) in tokens
  {
    if tokens != [] {
      var n := |tokens|;
      var front := tokens[..n - 1];
      assert tokens == front + [tokens[n - 1]];
      assert SelectedIndices(front, count).Some?;
      SelectedIndicesMembers(front, count, i);
      assert Index(i) in tokens <==> Index(i) in front || tokens[n - 1] == Index(i);
    }
  }

  /** Once the loop has failed, the pieces after the bad one do not matter. */
  lemma {:induction false} SelectedIndicesFailureSticks(tokens: seq<Token>, i: nat, count: nat)
    requires i <= |tokens| && SelectedIndices(tokens[..i], count).None?
    ensures SelectedIndices(tokens, count).None?
  {
    if i < |tokens| {
      var n := |tokens|;
      assert tokens[..n - 1][..i] == tokens[..i];
      SelectedIndicesFailureSticks(tokens[..n - 1], i, count);
    } else {
      assert tokens[..i] == tokens;
    }
  }

  /** Every collected index is within the table of filters. */
  lemma SelectedIndicesInRange(tokens: seq<Token>, count: nat)
    ensures SelectedIndices(tokens, count).Some? ==> forall j :: j in SelectedIndices(tokens, count).value ==> 0 <= j < count
  {
    if SelectedIndices(tokens, count).Some? {
      forall j | j in SelectedIndices(tokens, count).value
        ensures 0 <= j < count
      {
        SelectedIndicesMembers(tokens, count, j);
      }
    }
  }

  /** The indices of `order` are pairwise different. */
  predicate Distinct<T(==)>(s: seq<T>)
  {
    forall i, j :: 0 <= i < j < |s| ==> s[i] != s[j]
  }

  /**
   * The parse loop of `parseFilterSelection`: the pieces are trimmed, blank
   * ones skipped and each other one parsed; an in-range index joins the set,
   * an out-of-range one is skipped, and a piece that is not a number ends the
   * loop with the set abandoned (`None`).
   */
  method CollectIndices(pieces: seq<string>, count: nat) returns (indices: Option<set<int>>)
    ensures indices == SelectedIndices(Classified(pieces), count)
    ensures indices.Some? ==> forall j :: j in indices.value ==> 0 <= j < count
  {
    var unique: set<int> := {};
    var i := 0;
    while i < |pieces|
      invariant 0 <= i <= |pieces|
      invariant SelectedIndices(Classified(pieces[..i]), count) == Some(unique)
    {
      var failed, next := AddPiece(pieces, i, count, unique);
      if failed {
        ClassifiedPrefix(pieces, i + 1);
        SelectedIndicesFailureSticks(Classified(pieces), i + 1, count);
        return None;
      }
      unique := next;
      i := i + 1;
    }
    assert pieces[..i] == pieces;
    indices := Some(unique);
    SelectedIndicesInRange(Classified(pieces), count);
  }

  /**
   * The body of the parse loop for piece `i`: a blank piece changes nothing,
   * a piece that is not a number fails the loop, and an index joins the set
   * when it is in range.
   */
  method AddPiece(pieces: seq<string>, i: nat, count: nat, unique: set<int>) returns (failed: bool, next: set<int>)
    requires i < |pieces| && SelectedIndices(Classified(pieces[..i]), count) == Some(unique)
    ensures failed <==> SelectedIndices(Classified(pieces[..i + 1]), count).None?
    ensures !failed ==> SelectedIndices(Classified(pieces[..i + 1]), count) == Some(next)
  {
    var token := Classify(pieces[i]);
    ClassifiedSnoc(pieces, i);
    SelectedIndicesSnoc(Classified(pieces[..i]), token, count);
    failed, next := false, unique;
    match token {
      case Blank =>
      case NotANumber =>
        failed := true;
      case Index(index) =>
        if 0 <= index < count {
          next := unique + {index};
        }
    }
  }

  /** A set that is not empty has a member. */
  lemma NonEmptyHasMember(s: set<int>)
    requires s != {}
    ensures exists x :: x in s
  {
    if forall x :: x !in s {
      assert false;
    }
  }

  /**
   * The read-out of the collected set into filters, in the `HashSet`'s own
   * iteration order, modelled as any order (`order` records the one taken).
   */
  method ReadOut(unique: set<int>, available: seq<FilterType>) returns (selected: seq<FilterType>, ghost order: seq<int>)
    requires forall j :: j in unique ==> 0 <= j < |available|
    ensures |order| == |selected| && Distinct(order)
    ensures forall j :: j in order <==> j in unique
    ensures forall k :: 0 <= k < |order| ==> 0 <= order[k] < |available| && selected[k] == available[order[k]]
    ensures selected == [] <==> unique == {}
  {
    selected, order := [], [];
    var remaining := unique;
    while remaining != {}
      invariant remaining <= unique && (remaining == unique ==> selected == [])
      invariant |order| == |selected| && Distinct(order)
      invariant forall j :: j in order <==> j in unique && j !in remaining
      invariant forall k :: 0 <= k < |order| ==> 0 <= order[k] < |available| && selected[k] == available[order[k]]
      decreases |remaining|
    {
      NonEmptyHasMember(remaining);
      var index :| index in remaining;
      selected := selected + [available[index]];
      order := order + [index];
      remaining := remaining - {index};
    }
    if unique != {} {
      NonEmptyHasMember(unique);
      var j :| j in unique;
      assert j in order;
    }
  }

  /** `"".split(",")` is one blank piece, which selects nothing. */
  lemma EmptyInputSelectsNothing(count: nat)
    ensures SelectedIndices(Classified(JavaSplit("", ',')), count) == Some({})
  {
    assert JavaSplit("", ',') == [""];
    assert Classify("") == Blank;
    assert Classified([""]) == [Blank];
  }

  /**
   * `parseFilterSelection(input, availableFilters)`. Empty input gives the
   * defaults; otherwise the indices collected from `input.split(",")` are
   * read out as filters, and if the input is malformed or selects nothing
   * the defaults are returned.
   */
  method ParseFilterSelection(input: string, available: seq<FilterType>)
    returns (selected: seq<FilterType>, ghost order: seq<int>)
    ensures input == [] ==> selected == DEFAULT_FILTERS
    ensures var indices := SelectedIndices(Classified(JavaSplit(input, ',')), |available|);
            input != [] && indices.Some? && indices.value != {} ==>
              |order| == |selected| && Distinct(order) &&
              (forall j :: j in order <==> j in indices.value) &&
              forall k :: 0 <= k < |order| ==> 0 <= order[k] < |available| && selected[k] == available[order[k]]
    ensures var indices := SelectedIndices(Classified(JavaSplit(input, ',')), |available|);
            indices.None? || indices.value == {} ==> selected == DEFAULT_FILTERS
    ensures selected != []
    ensures Distinct(available) ==> Distinct(selected)
  {
    order := [];
    if input == [] {
      EmptyInputSelectsNothing(|available|);
      selected := DEFAULT_FILTERS;
      return;
    }
    var indices := CollectIndices(JavaSplit(input, ','), |available|);
    selected := [];
    if indices.Some? {
      selected, order := ReadOut(indices.value, available);
    }
    if selected == [] {
      selected := DEFAULT_FILTERS;
      order := [];
    } else {
      ReadOutDistinct(order, selected, available);
    }
  }

  /** Filters read out at distinct indices of a list of distinct filters are distinct. */
  lemma ReadOutDistinct(order: seq<int>, selected: seq<FilterType>, available: seq<FilterType>)
    requires |order| == |selected| && Distinct(order)
    requires forall k :: 0 <= k < |order| ==> 0 <= order[k] < |available| && selected[k] == available[order[k]]
    ensures Distinct(available) ==> Distinct(selected)
  {
    if Distinct(available) {
      forall i, j | 0 <= i < j < |selected|
        ensures selected[i] != selected[j]
      {
        assert order[i] != order[j];
      }
    }
  }

  // ------------------------------------------------------ per-line prompts

  /**
   * One line of `getBooleanInput`: trimmed and lower-cased, a line starting
   * with "y" or equal to "true" means yes, one starting with "n" or equal
   * to "false" means no, and any other line is asked again.
   */
  function BooleanDecision(line: string): (r: Option<bool>)
    ensures var s := ToLower(Trim(line));
            r == Some(true) <==> (s != [] && s[0] == 'y') || s == "true"
    ensures var s := ToLower(Trim(line));
            r == Some(false) <==> !((s != [] && s[0] == 'y') || s == "true") && ((s != [] && s[0] == 'n') || s == "false")
  {
    var s := ToLower(Trim(line));
    if (s != [] && s[0] == 'y') || s == "true" then Some(true)
    else if (s != [] && s[0] == 'n') || s == "false" then Some(false)
    else None
  }

  /** Lower-casing keeps every character on the same side of U+0020. */
  lemma {:induction false} SkipLeadingToLower(s: string, k: nat)
    requires k <= |s|
    ensures SkipLeading(ToLower(s), k) == SkipLeading(s, k)
    decreases |s| - k
  {
    if k < |s| && IsTrimmed(s[k]) {
      SkipLeadingToLower(s, k + 1);
    }
  }

  lemma {:induction false} SkipTrailingToLower(s: string, k: nat)
    requires k <= |s|
    ensures SkipTrailing(ToLower(s), k) == SkipTrailing(s, k)
  {
    if k > 0 && IsTrimmed(s[k - 1]) {
      SkipTrailingToLower(s, k - 1);
    }
  }

  /** Lower-casing only changes letters, so it commutes with trimming. */
  lemma TrimToLower(s: string)
    ensures Trim(ToLower(s)) == ToLower(Trim(s))
  {
    SkipLeadingToLower(s, 0);
    SkipTrailingToLower(s, |s|);
    var start := SkipLeading(s, 0);
    if start < |s| {
      var end := SkipTrailing(s, |s|);
      assert ToLower(s)[start..end] == ToLower(s[start..end]);
    }
  }

  /** The yes/no decision ignores letter case: "YES", "True" and "nO" decide like "yes", "true" and "no". */
  lemma BooleanDecisionIgnoresCase(line: string)
    ensures BooleanDecision(ToLower(line)) == BooleanDecision(line)
  {
    TrimToLower(line);
    ToLowerIdempotent(Trim(line));
  }

  /**
   * One line of `getIntInput(min, max)`: trimmed; a blank line, a line that
   * does not parse, or a value outside `[min, max]` is asked again.
   */
  function IntDecision(line: string, min: int, max: int): (r: Option<int>)
    ensures r.Some? ==> min <= r.value <= max && ParseInt(Trim(line)) == Some(r.value)
    ensures r.None? ==> ParseInt(Trim(line)).None? || !(min <= ParseInt(Trim(line)).value <= max)
  {
    var trimmed := Trim(line);
    if trimmed == [] then None
    else match ParseInt(trimmed)
      case None => None
      case Some(v) => if min <= v <= max then Some(v) else None
  }

  /** `Integer.toString(n)` starts with a sign or a digit and ends with a digit. */
  lemma IntToStringUnpadded(n: int)
    ensures var s := IntToString(n); s != [] && !IsTrimmed(s[0]) && !IsTrimmed(s[|s| - 1])
  {
    var m: nat := if n < 0 then -n else n;
    var digits := NatToString(m);
    assert IsDigit(digits[0]) && IsDigit(digits[|digits| - 1]);
    if n < 0 {
      assert IntToString(n) == "-" + digits;
    } else {
      assert IntToString(n) == digits;
    }
  }

  /** `Integer.toString(n)` needs no trimming. */
  lemma TrimIntToString(n: JInt)
    ensures Trim(IntToString(n)) == IntToString(n)
  {
    IntToStringUnpadded(n);
    TrimUnpadded(IntToString(n));
  }

  /** Every number in range, typed as `Integer.toString` prints it, is accepted as itself. */
  lemma IntDecisionAcceptsPrinted(n: JInt, min: int, max: int)
    requires min <= n <= max
    ensures IntDecision(IntToString(n), min, max) == Some(n)
  {
    TrimIntToString(n);
    ParseIntToString(n);
  }

  /** One line of `getMenuChoice`: a number from 0 to 7. */
  function MenuDecision(line: string): (r: Option<int>)
    ensures r.Some? ==> MIN_MENU_CHOICE <= r.value <= MAX_MENU_CHOICE
  {
    IntDecision(line, MIN_MENU_CHOICE, MAX_MENU_CHOICE)
  }

  /** Each menu entry, typed as its number, is accepted. */
  lemma MenuDecisionAcceptsEntries(choice: int)
    requires MIN_MENU_CHOICE <= choice <= MAX_MENU_CHOICE
    ensures MenuDecision(IntToString(choice)) == Some(choice)
  {
    IntDecisionAcceptsPrinted(choice, MIN_MENU_CHOICE, MAX_MENU_CHOICE);
  }

  /** `getMethodName(methodChoice)` */
  function MethodName(methodChoice: int): (name: string)
    ensures name != "Unknown" <==> 1 <= methodChoice <= 4
  {
    match methodChoice
    case 1 => "Sequential"
    case 2 => "Parallel (Fixed Pool)"
    case 3 => "Vector API"
    case 4 => "Hybrid Vector+Parallel"
    case _ => "Unknown"
  }

  /** The four strategies have four different names. */
  lemma MethodNamesDistinct(a: int, b: int)
    requires 1 <= a <= 4 && 1 <= b <= 4 && a != b
    ensures MethodName(a) != MethodName(b)
  {
  }
}
