/** The CAPEX normalizer: maps one raw cell of the CAPEX column to an amount.

    A cell is a value as it sits in the table: `Num` is a number (a float or
    integer, or a boolean as 1 or 0), `Text` is a string, whatever its
    characters, and `Missing` is an absent value. The numeric coercion keeps
    numbers, hands each string to the parser of the coercion, and turns what
    it rejects into NaN. */
module Normalizer {

  datatype Cell = Num(r: real) | Text(s: string) | Missing

  datatype Option<T> = None | Some(value: T)

  /** One entry of a float64 column: a finite number or NaN. */
  datatype Float = Finite(value: real) | NaN

  /** The words that make a non-numeric cell count as 1.0. */
  const TruthyWords: set<string> := {"yes", "y", "true", "t", "1"}

  /** Numeric coercion with errors='coerce': a number is kept, a string is
      the number `parse` reads from it, and anything not parsed becomes NaN. */
  function ToNumeric(parse: string -> Option<real>, c: Cell): (f: Float)
  {
    match c
    case Num(r) => Finite(r)
    case Text(s) => if parse(s).Some? then Finite(parse(s).value) else NaN
    case Missing => NaN
  }

  /** The string form of a non-numeric cell. `Missing` is the float NaN that
      the CSV reader gives an empty field, and it prints as "nan". */
  function AsText(c: Cell): (t: string)
    requires !c.Num?
  {
    match c
    case Text(s) => s
    case Missing => "nan"
  }

  /** The characters that Python's str.strip() removes (str.isspace). */
  predicate IsSpace(ch: char)
  {
    ('\t' <= ch <= '\r') || ('\U{1C}' <= ch <= '\U{1F}') || ch == ' '
    || ch == '\U{85}' || ch == '\U{A0}' || ch == '\U{1680}'
    || ('\U{2000}' <= ch <= '\U{200A}') || ch == '\U{2028}' || ch == '\U{2029}'
    || ch == '\U{202F}' || ch == '\U{205F}' || ch == '\U{3000}'
  }

  predicate AllSpace(s: string)
  {
    forall i :: 0 <= i < |s| ==> IsSpace(s[i])
  }

  function TrimStart(s: string): string
  {
    if |s| > 0 && IsSpace(s[0]) then TrimStart(s[1..]) else s
  }

  function TrimEnd(s: string): string
  {
    if |s| > 0 && IsSpace(s[|s| - 1]) then TrimEnd(s[..|s| - 1]) else s
  }

  /** str.strip(): drop surrounding whitespace. The result is part of `s`
      and neither begins nor ends with whitespace. */
  function Strip(s: string): (r: string)
    ensures |r| <= |s|
    ensures |r| > 0 ==> !IsSpace(r[0]) && !IsSpace(r[|r| - 1])
  {
    var t := TrimStart(s);
    TrimStartSplit(s);
    TrimStartFirst(s);
    TrimEndSplit(t);
    TrimEndLast(t);
    assert |TrimEnd(t)| > 0 ==> TrimEnd(t)[0] == t[0];
    TrimEnd(t)
  }

  function LowerChar(ch: char): char
  {
    if 'A' <= ch <= 'Z' then (ch as int + 32) as char else ch
  }

  /** str.lower() on the letters that matter for the truthy words. */
  function Lower(s: string): (r: string)
    ensures |r| == |s|
  {
    seq(|s|, i requires 0 <= i < |s| => LowerChar(s[i]))
  }

  /** The text test of the normalizer: trimmed, lower-cased, one of the truthy words. */
  predicate IsTruthy(s: string)
  {
    Lower(Strip(s)) in TruthyWords
  }

  /** The amount one cell normalizes to: the coerced number, or else 1.0
      for truthy text and 0.0 for anything else. */
  function Amount(parse: string -> Option<real>, c: Cell): (r: real)
    ensures ToNumeric(parse, c).Finite? ==> r == ToNumeric(parse, c).value
    ensures ToNumeric(parse, c).NaN? ==> r == 1.0 || r == 0.0
  {
    match ToNumeric(parse, c)
    case Finite(v) => v
    case NaN => if IsTruthy(AsText(c)) then 1.0 else 0.0
  }

  /** The normalized column, cell by cell. */
  function NormalizeAll(parse: string -> Option<real>, series: seq<Cell>): (amounts: seq<real>)
  {
    seq(|series|, i requires 0 <= i < |series| => Amount(parse, series[i]))
  }

  /** `pd.to_numeric(series, errors='coerce')`: the coerced float column. */
  function Coerce(parse: string -> Option<real>, series: seq<Cell>): (numeric: seq<Float>)
  {
    seq(|series|, i requires 0 <= i < |series| => ToNumeric(parse, series[i]))
  }

  /** `numeric.isna()` right after the coercion: the cells that did not parse. */
  function NonNumericMask(numeric: seq<Float>): (mask: seq<bool>)
  {
    seq(|numeric|, i requires 0 <= i < |numeric| => numeric[i].NaN?)
  }

  /** The cells that did not parse and whose text is truthy. */
  function TruthyMask(parse: string -> Option<real>, series: seq<Cell>): (mask: seq<bool>)
  {
    seq(|series|, i requires 0 <= i < |series| =>
      ToNumeric(parse, series[i]).NaN? && IsTruthy(AsText(series[i])))
  }

  /** The amount of a cell, read off its coerced entry and its truthy flag. */
  lemma AmountByMasks(parse: string -> Option<real>, c: Cell)
    ensures Amount(parse, c) ==
      if ToNumeric(parse, c).NaN? && IsTruthy(AsText(c)) then 1.0
      else if ToNumeric(parse, c).NaN? then 0.0
      else ToNumeric(parse, c).value
  {
  }

  /** Element-wise `a & b` of two boolean masks. */
  function MaskAnd(a: seq<bool>, b: seq<bool>): (m: seq<bool>)
    requires |a| == |b|
  {
    seq(|a|, i requires 0 <= i < |a| => a[i] && b[i])
  }

  /** Element-wise `~a` of a boolean mask. */
  function MaskNot(a: seq<bool>): (m: seq<bool>)
  {
    seq(|a|, i requires 0 <= i < |a| => !a[i])
  }

  /** `numeric.loc[mask] = value`: overwrite the selected entries, keep the rest. */
  method AssignWhere(numeric: array<Float>, mask: seq<bool>, value: Float)
    requires |mask| == numeric.Length
    modifies numeric
    ensures forall j :: 0 <= j < numeric.Length ==>
      numeric[j] == if mask[j] then value else old(numeric[j])
  {
    for i := 0 to numeric.Length
      invariant forall j :: 0 <= j < numeric.Length ==>
        numeric[j] == if j < i && mask[j] then value else old(numeric[j])
    {
      if mask[i] {
        numeric[i] := value;
      }
    }
  }

  /** normalize_capex: coerce to numbers, then overwrite the entries that did
      not parse with 1.0 (truthy text) or 0.0 (anything else), then fill what
      is still NaN with 0.0. The result has one amount per cell, in order. */
  method NormalizeCapex(parse: string -> Option<real>, series: seq<Cell>) returns (amounts: seq<real>)
    ensures |amounts| == |series|
    ensures forall i :: 0 <= i < |series| ==> amounts[i] == Amount(parse, series[i])
  {
    var n := |series|;
    var coerced := Coerce(parse, series);
    var numeric := new Float[n](i requires 0 <= i < n => coerced[i]);
    var nonNumeric := NonNumericMask(coerced);
    var truthy := TruthyMask(parse, series);
    AssignWhere(numeric, MaskAnd(nonNumeric, truthy), Finite(1.0));
    AssignWhere(numeric, MaskAnd(nonNumeric, MaskNot(truthy)), Finite(0.0));

    // fillna(0.0), read out as the returned series
    var filled := numeric[..];
    amounts := [];
    for i := 0 to n
      invariant |amounts| == i
      invariant forall j :: 0 <= j < i ==> amounts[j] == Amount(parse, series[j])
    {
      AmountByMasks(parse, series[i]);
      amounts := amounts + [if filled[i].NaN? then 0.0 else filled[i].value];
    }
  }

  // ---------------------------------------------------------------------------
  // Properties of the normalization

  /** A cell that did not parse as a number always becomes 1.0 or 0.0, and it
      becomes 1.0 exactly when it is text that passes the truthy test. */
  lemma NonNumericIsZeroOrOne(parse: string -> Option<real>, c: Cell)
    requires ToNumeric(parse, c).NaN?
    ensures Amount(parse, c) == 1.0 || Amount(parse, c) == 0.0
    ensures Amount(parse, c) == 1.0 <==> c.Text? && IsTruthy(c.s)
  {
    if c.Missing? {
      MissingIsZero(parse);
    }
  }

  /** A missing value renders as "nan", which is not truthy, so it becomes 0.0. */
  lemma MissingIsZero(parse: string -> Option<real>)
    ensures !IsTruthy("nan")
    ensures Amount(parse, Missing) == 0.0
  {
    assert TrimStart("nan") == "nan";
    assert TrimEnd("nan") == "nan";
    assert Lower("nan") == "nan";
  }

  lemma {:induction false} TrimStartSpaces(pre: string, x: string)
    requires AllSpace(pre)
    ensures TrimStart(pre + x) == TrimStart(x)
  {
    if |pre| > 0 {
      assert (pre + x)[1..] == pre[1..] + x;
      TrimStartSpaces(pre[1..], x);
    } else {
      assert pre + x == x;
    }
  }

  lemma {:induction false} TrimEndSpaces(x: string, post: string)
    requires AllSpace(post)
    ensures TrimEnd(x + post) == TrimEnd(x)
  {
    if |post| > 0 {
      var m := |post| - 1;
      assert (x + post)[..|x + post| - 1] == x + post[..m];
      TrimEndSpaces(x, post[..m]);
    } else {
      assert x + post == x;
    }
  }

  lemma {:induction false} TrimStartAllSpace(s: string)
    requires AllSpace(s)
    ensures TrimStart(s) == []
  {
    if |s| > 0 {
      TrimStartAllSpace(s[1..]);
    }
  }

  lemma {:induction false} TrimEndAllSpace(s: string)
    requires AllSpace(s)
    ensures TrimEnd(s) == []
  {
    if |s| > 0 {
      TrimEndAllSpace(s[..|s| - 1]);
    }
  }

  /** Trimming the start of `s + post` keeps `post` unless `s` is all blank. */
  lemma {:induction false} TrimStartAppend(s: string, post: string)
    ensures AllSpace(s) ==> TrimStart(s + post) == TrimStart(post)
    ensures !AllSpace(s) ==> TrimStart(s + post) == TrimStart(s) + post
  {
    if |s| == 0 {
      assert s + post == post;
    } else if IsSpace(s[0]) {
      assert (s + post)[1..] == s[1..] + post;
      TrimStartAppend(s[1..], post);
      if !AllSpace(s) {
        var k :| 0 <= k < |s| && !IsSpace(s[k]);
        assert !IsSpace(s[1..][k - 1]);
      }
    }
  }

  /** Surrounding whitespace does not change the stripped text. */
  lemma StripPadding(pre: string, s: string, post: string)
    requires AllSpace(pre) && AllSpace(post)
    ensures Strip(pre + s + post) == Strip(s)
  {
    assert pre + s + post == pre + (s + post);
    TrimStartSpaces(pre, s + post);
    TrimStartAppend(s, post);
    if AllSpace(s) {
      TrimStartAllSpace(post);
      TrimStartAllSpace(s);
    } else {
      TrimEndSpaces(TrimStart(s), post);
    }
  }

  lemma {:induction false} TrimStartLower(s: string)
    ensures TrimStart(Lower(s)) == Lower(TrimStart(s))
  {
    if |s| > 0 {
      assert Lower(s)[1..] == Lower(s[1..]);
      TrimStartLower(s[1..]);
    }
  }

  lemma {:induction false} TrimEndLower(s: string)
    ensures TrimEnd(Lower(s)) == Lower(TrimEnd(s))
  {
    if |s| > 0 {
      assert Lower(s)[..|s| - 1] == Lower(s[..|s| - 1]);
      TrimEndLower(s[..|s| - 1]);
    }
  }

  /** Lower-casing and stripping commute, since no letter is whitespace. */
  lemma StripLower(s: string)
    ensures Strip(Lower(s)) == Lower(Strip(s))
  {
    TrimStartLower(s);
    TrimEndLower(TrimStart(s));
  }

  /** The truthy test ignores letter case and surrounding whitespace: any
      spelling of `s` in other letter case, padded with whitespace on either
      side, is truthy exactly when `s` is. */
  lemma TruthyIgnoresCaseAndPadding(s: string, u: string, pre: string, post: string)
    requires Lower(u) == Lower(s)
    requires AllSpace(pre) && AllSpace(post)
    ensures IsTruthy(pre + u + post) <==> IsTruthy(s)
  {
    StripPadding(pre, u, post);
    StripLower(u);
    StripLower(s);
  }

  lemma {:induction false} TrimStartFirst(s: string)
    ensures |TrimStart(s)| > 0 ==> !IsSpace(TrimStart(s)[0])
  {
    if |s| > 0 && IsSpace(s[0]) {
      TrimStartFirst(s[1..]);
    }
  }

  lemma {:induction false} TrimEndLast(s: string)
    ensures |TrimEnd(s)| > 0 ==> !IsSpace(TrimEnd(s)[|TrimEnd(s)| - 1])
  {
    if |s| > 0 && IsSpace(s[|s| - 1]) {
      TrimEndLast(s[..|s| - 1]);
    }
  }

  /** `TrimStart(s)` is what is left after a blank prefix of `s`. */
  lemma {:induction false} TrimStartSplit(s: string)
    ensures |TrimStart(s)| <= |s|
    ensures s == s[..|s| - |TrimStart(s)|] + TrimStart(s)
    ensures AllSpace(s[..|s| - |TrimStart(s)|])
  {
    if |s| > 0 && IsSpace(s[0]) {
      TrimStartSplit(s[1..]);
      var k := |s[1..]| - |TrimStart(s[1..])|;
      assert s[..k + 1] == [s[0]] + s[1..][..k];
    } else {
      assert s[..0] == [];
    }
  }

  /** `TrimEnd(s)` is what is left before a blank suffix of `s`. */
  lemma {:induction false} TrimEndSplit(s: string)
    ensures |TrimEnd(s)| <= |s|
    ensures s == TrimEnd(s) + s[|TrimEnd(s)|..]
    ensures AllSpace(s[|TrimEnd(s)|..])
  {
    if |s| > 0 && IsSpace(s[|s| - 1]) {
      var m := |s| - 1;
      TrimEndSplit(s[..m]);
      var k := |TrimEnd(s[..m])|;
      assert s[k..] == s[..m][k..] + [s[m]];
    } else {
      assert s[|s|..] == [];
    }
  }

  /** `strip` removes only whitespace: `s` is a blank prefix, the stripped
      text, then a blank suffix. */
  lemma StripSplit(s: string) returns (pre: string, post: string)
    ensures AllSpace(pre) && AllSpace(post)
    ensures s == pre + Strip(s) + post
  {
    var t := TrimStart(s);
    TrimStartSplit(s);
    TrimEndSplit(t);
    pre, post := s[..|s| - |t|], t[|TrimEnd(t)|..];
  }

  /** The other missing-value markers print as "None", "<NA>" and "NaT";
      none of them is truthy, so they count as 0.0 like "nan". */
  lemma OtherMissingMarkersNotTruthy()
    ensures !IsTruthy("None") && !IsTruthy("<NA>") && !IsTruthy("NaT")
  {
    assert TrimStart("None") == "None" && TrimEnd("None") == "None";
    assert TrimStart("<NA>") == "<NA>" && TrimEnd("<NA>") == "<NA>";
    assert TrimStart("NaT") == "NaT" && TrimEnd("NaT") == "NaT";
    assert Lower("None") == "none" && Lower("<NA>") == "<na>" && Lower("NaT") == "nat";
  }

  /** A truthy word in any letter case, with whitespace around it, is truthy. */
  lemma PaddedWordIsTruthy(pre: string, u: string, post: string)
    requires AllSpace(pre) && AllSpace(post) && Lower(u) in TruthyWords
    ensures IsTruthy(pre + u + post)
  {
    var w := Lower(u);
    assert Lower(w) == w;
    TruthyIgnoresCaseAndPadding(w, u, pre, post);
    assert TrimStart(w) == w && TrimEnd(w) == w;
  }

  /** A truthy text splits into blank padding around a truthy word. */
  lemma TruthyIsPaddedWord(s: string) returns (pre: string, u: string, post: string)
    requires IsTruthy(s)
    ensures AllSpace(pre) && AllSpace(post) && Lower(u) in TruthyWords
    ensures s == pre + u + post
  {
    var t := TrimStart(s);
    TrimStartSplit(s);
    TrimEndSplit(t);
    pre, u, post := s[..|s| - |t|], TrimEnd(t), t[|TrimEnd(t)|..];
  }

  /** A text is truthy exactly when it is one of the truthy words, in any
      letter case, with any whitespace around it. */
  lemma TruthyCharacterization(s: string)
    ensures IsTruthy(s) <==>
      exists pre, u, post :: AllSpace(pre) && AllSpace(post) && Lower(u) in TruthyWords
                             && s == pre + u + post
  {
    if IsTruthy(s) {
      var pre, u, post := TruthyIsPaddedWord(s);
    } else {
      forall pre, u, post | AllSpace(pre) && AllSpace(post) && Lower(u) in TruthyWords
        ensures s != pre + u + post
      {
        PaddedWordIsTruthy(pre, u, post);
      }
    }
  }

  /** Padded upper-case "YES" and plain "yes" each count as 1.0 when the
      parser rejects them. */
  lemma PaddedUpperYesIsOne(parse: string -> Option<real>)
    ensures parse(" YES ").None? ==> Amount(parse, Text(" YES ")) == 1.0
    ensures parse("yes").None? ==> Amount(parse, Text("yes")) == 1.0
  {
    assert Lower("yes") == "yes" == Lower("YES");
    assert TrimStart("yes") == "yes" && TrimEnd("yes") == "yes";
    assert IsTruthy("yes");
    assert " " + "YES" + " " == " YES ";
    TruthyIgnoresCaseAndPadding("yes", "YES", " ", " ");
  }

  /** "True" counts as 1.0; an unrecognised word counts as 0.0 (neither one
      parses). A string the parser reads keeps its number. */
  lemma TrueAndUnknownWord(parse: string -> Option<real>)
    ensures parse("True").None? ==> Amount(parse, Text("True")) == 1.0
    ensures parse("maybe").None? ==> Amount(parse, Text("maybe")) == 0.0
    ensures parse("5.5") == Some(5.5) ==> Amount(parse, Text("5.5")) == 5.5
  {
    assert Lower("True") == "true";
    assert TrimStart("True") == "True" && TrimEnd("True") == "True";
    assert TrimStart("maybe") == "maybe" && TrimEnd("maybe") == "maybe";
    assert Lower("maybe") == "maybe";
  }
}
