/** The JSON path builder, a reader for the paths it prints, and the round trip between the two. */
module JsonPath {
  import opened Prelude
  import opened Quoting

  datatype Step = Key(name: string) | Index(i: nat)

  /** Letters and digits of the C locale, and the underscore. */
  predicate IsWord(c: char) {
    'a' <= c <= 'z' || 'A' <= c <= 'Z' || IsDigit(c) || c == '_'
  }

  predicate IsDigit(c: char) {
    '0' <= c <= '9'
  }

  predicate NeedsQuotedKey(key: string) {
    key == [] || exists i :: 0 <= i < |key| && !IsWord(key[i])
  }

  /** `std::to_string`. */
  function Decimal(n: nat): string {
    if n < 10 then [n as char + '0'] else Decimal(n / 10) + [(n % 10) as char + '0']
  }

  function Printed(step: Step): string {
    match step
    case Key(name) => "." + (if NeedsQuotedKey(name) then Quoted(name) else name)
    case Index(i) => "[" + Decimal(i) + "]"
  }

  function PrintedAll(steps: seq<Step>): string {
    if steps == [] then [] else PrintedAll(steps[..|steps| - 1]) + Printed(steps[|steps| - 1])
  }

  /** A key is printed bare if and only if it is not empty and all its characters are letters, digits or underscores. */
  lemma BareIff(key: string)
    ensures Printed(Key(key)) == "." + key <==>
            key != [] && forall i :: 0 <= i < |key| ==>
                           'a' <= key[i] <= 'z' || 'A' <= key[i] <= 'Z' || '0' <= key[i] <= '9' || key[i] == '_'
    ensures Printed(Key(key)) == "." + key || Printed(Key(key)) == "." + Quoted(key)
  {
    if NeedsQuotedKey(key) {
      QuotedIsLonger(key);
    }
  }

  lemma {:induction false} QuotedIsLonger(s: string)
    ensures |Doubled(s)| >= |s|
  {
    if s == [] {
    } else {
      QuotedIsLonger(s[1..]);
    }
  }

  /** Indices are printed without leading zeros, in base ten, between brackets. */
  lemma {:induction false} DecimalCanonical(n: nat)
    ensures Decimal(n) != [] && (Decimal(n)[0] == '0' <==> n == 0)
    ensures |Decimal(n)| == 1 <==> n <= 9
    ensures Decimal(n)[|Decimal(n)| - 1] as int == '0' as int + n % 10
    ensures n > 9 ==> Decimal(n)[..|Decimal(n)| - 1] == Decimal(n / 10)
    ensures Printed(Index(n)) == "[" + Decimal(n) + "]"
  {
    if n < 10 {
    } else {
      DecimalCanonical(n / 10);
    }
  }

  lemma PrintedAppend(steps: seq<Step>, step: Step)
    ensures "$" + PrintedAll(steps + [step]) == "$" + PrintedAll(steps) + Printed(step)
  {
  }

  class PathBuilder {
    var path: string
    ghost var steps: seq<Step>

    ghost predicate Valid()
      reads this
    {
      path == "$" + PrintedAll(steps)
    }

    constructor ()
      ensures Valid() && path == "$" && steps == []
    {
      path, steps := "$", [];
    }

    method Key(segment: string)
      requires Valid()
      modifies this
      ensures Valid() && steps == old(steps) + [Step.Key(segment)]
    {
      path := path + ".";
      if NeedsQuotedKey(segment) {
        var quoted := Quote(segment);
        Assoc(old(path), ".", quoted);
        path := path + quoted;
      } else {
        Assoc(old(path), ".", segment);
        path := path + segment;
      }
      PrintedAppend(steps, Step.Key(segment));
      steps := steps + [Step.Key(segment)];
    }

    method Index(idx: nat)
      requires Valid()
      modifies this
      ensures Valid() && steps == old(steps) + [Step.Index(idx)]
    {
      path := path + "[";
      Assoc(old(path), "[", Decimal(idx));
      path := path + Decimal(idx);
      Assoc(old(path), "[" + Decimal(idx), "]");
      path := path + "]";
      PrintedAppend(steps, Step.Index(idx));
      steps := steps + [Step.Index(idx)];
    }
  }

  // ----- Reading paths -----

  /** The length of the longest front of `text` made of word characters. */
  function WordSpan(text: string): (n: nat)
    ensures n <= |text| && forall i :: 0 <= i < n ==> IsWord(text[i])
    ensures n < |text| ==> !IsWord(text[n])
  {
    if text == [] || !IsWord(text[0]) then 0 else 1 + WordSpan(text[1..])
  }

  function DecimalValue(digits: string): nat
    requires forall i :: 0 <= i < |digits| ==> IsDigit(digits[i])
  {
    if digits == [] then 0
    else
      var last := digits[|digits| - 1];
      assert IsDigit(last);
      DecimalValue(digits[..|digits| - 1]) * 10 + (last as int - '0' as int)
  }

  /** One step from the front of `text`, and what follows it. */
  function ReadStep(text: string): (r: Option<(Step, string)>)
    ensures r.Some? ==> |r.value.1| < |text|
  {
    if |text| < 2 then None
    else if text[0] == '.' && text[1] == '"' then
      (match ReadQuoted(text[1..])
       case None => None
       case Some((name, rest)) => ReadQuotedIff(text[1..], name, rest); Some((Key(name), rest)))
    else if text[0] == '.' then
      var n := WordSpan(text[1..]);
      if n == 0 then None else Some((Key(text[1..][..n]), text[1..][n..]))
    else if text[0] == '[' then
      var n := WordSpan(text[1..]);
      var digits := text[1..][..n];
      if n == 0 || n + 1 == |text| || text[n + 1] != ']' || exists i :: 0 <= i < n && !IsDigit(digits[i]) then None
      else Some((Index(DecimalValue(digits)), text[n + 2..]))
    else None
  }

  function ReadSteps(text: string): Option<seq<Step>>
    decreases |text|
  {
    if text == [] then Some([])
    else
      match ReadStep(text)
      case None => None
      case Some((step, rest)) =>
        match ReadSteps(rest)
        case None => None
        case Some(steps) => Some([step] + steps)
  }

  function ReadPath(text: string): Option<seq<Step>> {
    if text == [] || text[0] != '$' then None else ReadSteps(text[1..])
  }

  lemma {:induction false} DecimalRoundTrip(n: nat)
    ensures Decimal(n) != [] && forall i :: 0 <= i < |Decimal(n)| ==> IsDigit(Decimal(n)[i])
    ensures DecimalValue(Decimal(n)) == n
  {
    if n < 10 {
      assert Decimal(n)[..0] == [];
    } else {
      DecimalRoundTrip(n / 10);
      assert Decimal(n)[..|Decimal(n)| - 1] == Decimal(n / 10);
    }
  }

  lemma {:induction false} WordSpanAt(word: string, rest: string)
    requires forall i :: 0 <= i < |word| ==> IsWord(word[i])
    requires rest == [] || !IsWord(rest[0])
    ensures WordSpan(word + rest) == |word|
  {
    if word == [] {
    } else {
      assert (word + rest)[1..] == word[1..] + rest;
      WordSpanAt(word[1..], rest);
    }
  }

  /** The text after a step is empty or begins the next step. */
  predicate StartsStep(rest: string) {
    rest == [] || rest[0] == '.' || rest[0] == '['
  }

  lemma QuotedKeyRoundTrip(name: string, rest: string)
    requires NeedsQuotedKey(name) && StartsStep(rest)
    ensures ReadStep(Printed(Key(name)) + rest) == Some((Key(name), rest))
  {
    var text := Printed(Key(name)) + rest;
    Assoc(".", Quoted(name), rest);
    assert text[1..] == Quoted(name) + rest;
    ReadQuotedIff(text[1..], name, rest);
  }

  lemma BareKeyRoundTrip(name: string, rest: string)
    requires !NeedsQuotedKey(name) && StartsStep(rest)
    ensures ReadStep(Printed(Key(name)) + rest) == Some((Key(name), rest))
  {
    var text := Printed(Key(name)) + rest;
    Assoc(".", name, rest);
    assert text[1..] == name + rest;
    assert text[1] == name[0] && IsWord(name[0]);
    WordSpanAt(name, rest);
  }

  lemma IndexRoundTrip(i: nat, rest: string)
    ensures ReadStep(Printed(Index(i)) + rest) == Some((Index(i), rest))
  {
    var text := Printed(Index(i)) + rest;
    var digits := Decimal(i);
    DecimalRoundTrip(i);
    Assoc("[", digits, "]");
    Assoc("[", digits + "]", rest);
    Assoc(digits, "]", rest);
    assert text[1..] == digits + ("]" + rest);
    WordSpanAt(digits, "]" + rest);
    assert text[1..][..|digits|] == digits;
    assert text[|digits| + 2..] == rest;
  }

  lemma StepRoundTrip(step: Step, rest: string)
    requires StartsStep(rest)
    ensures ReadStep(Printed(step) + rest) == Some((step, rest))
  {
    match step {
      case Key(name) =>
        if NeedsQuotedKey(name) {
          QuotedKeyRoundTrip(name, rest);
        } else {
          BareKeyRoundTrip(name, rest);
        }
      case Index(i) => IndexRoundTrip(i, rest);
    }
  }

  lemma {:induction false} PrintedFront(step: Step, rest: seq<Step>)
    ensures PrintedAll([step] + rest) == Printed(step) + PrintedAll(rest)
  {
    var all := [step] + rest;
    if rest == [] {
      assert all[..0] == [] && PrintedAll([]) == [];
    } else {
      var n := |rest| - 1;
      assert all[..|all| - 1] == [step] + rest[..n] && all[|all| - 1] == rest[n];
      PrintedFront(step, rest[..n]);
      Assoc(Printed(step), PrintedAll(rest[..n]), Printed(rest[n]));
    }
  }

  lemma {:induction false} StepsRoundTrip(steps: seq<Step>)
    ensures StartsStep(PrintedAll(steps)) && ReadSteps(PrintedAll(steps)) == Some(steps)
  {
    if steps == [] {
    } else {
      assert [steps[0]] + steps[1..] == steps;
      PrintedFront(steps[0], steps[1..]);
      StepsRoundTrip(steps[1..]);
      StepRoundTrip(steps[0], PrintedAll(steps[1..]));
    }
  }

  /** Reading the text of a path recovers the steps it was built from, whatever the keys contain. */
  lemma PathRoundTrip(steps: seq<Step>)
    ensures ReadPath("$" + PrintedAll(steps)) == Some(steps)
  {
    StepsRoundTrip(steps);
    assert ("$" + PrintedAll(steps))[1..] == PrintedAll(steps);
  }

  /** So different step sequences have different texts. */
  lemma PathsInjective(steps: seq<Step>, steps': seq<Step>)
    ensures "$" + PrintedAll(steps) == "$" + PrintedAll(steps') ==> steps == steps'
  {
    PathRoundTrip(steps);
    PathRoundTrip(steps');
  }
}
