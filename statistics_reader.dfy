/** The token reader of the `ColorClassifier` constructor: every whitespace
    token of the statistics file contributes the number spelled by its digit
    characters (brackets, commas and minus signs are dropped), and every four
    consecutive tokens fill one record [none, blue, red, yellow]. */
module StatisticsReader {
  import opened Domain

  /** `std::stoi` throws `std::invalid_argument` on a string with no digits. */
  datatype ParseError = InvalidArgument

  predicate IsDigit(c: char)
  {
    '0' <= c <= '9'
  }

  /** The digit characters of a token, in order. */
  function DigitsOf(token: string): (ds: string)
    ensures |ds| <= |token|
    ensures forall i :: 0 <= i < |ds| ==> IsDigit(ds[i])
  {
    if token == [] then []
    else
      var c := token[|token| - 1];
      DigitsOf(token[..|token| - 1]) + (if IsDigit(c) then [c] else [])
  }

  function DigitValue(c: char): nat
    requires IsDigit(c)
  {
    (c as int) - ('0' as int)
  }

  /** The number a decimal digit string spells. */
  function DecimalValue(ds: string): nat
    requires forall i :: 0 <= i < |ds| ==> IsDigit(ds[i])
  {
    if ds == [] then 0 else 10 * DecimalValue(ds[..|ds| - 1]) + DigitValue(ds[|ds| - 1])
  }

  /** `std::stoi` on a string of digits only: its value, or `invalid_argument`
      when the string is empty.  (Overflow of `int` is not modelled.) */
  function Stoi(ds: string): (r: Result<nat, ParseError>)
    requires forall i :: 0 <= i < |ds| ==> IsDigit(ds[i])
    ensures r.Err? <==> ds == []
  {
    if ds == [] then Err(InvalidArgument) else Ok(DecimalValue(ds))
  }

  /** The number a token contributes to the table. */
  function TokenValue(token: string): nat
    requires DigitsOf(token) != []
  {
    DecimalValue(DigitsOf(token))
  }

  /** `records` holds `values` four at a time, in order, with the last record
      padded by zeros: the layout the constructor's loop produces. */
  ghost predicate GroupedInFours(records: seq<Counts>, values: seq<nat>)
  {
    && |records| == (|values| + 3) / 4
    && forall i, k :: 0 <= i < |records| && 0 <= k < 4 ==>
         records[i][k] == if 4 * i + k < |values| then values[4 * i + k] else 0
  }

  function GroupInFours(values: seq<nat>): (records: seq<Counts>)
    ensures GroupedInFours(records, values)
  {
    seq((|values| + 3) / 4, i requires 0 <= i < (|values| + 3) / 4 =>
      [ if 4 * i < |values| then values[4 * i] else 0,
        if 4 * i + 1 < |values| then values[4 * i + 1] else 0,
        if 4 * i + 2 < |values| then values[4 * i + 2] else 0,
        if 4 * i + 3 < |values| then values[4 * i + 3] else 0 ])
  }

  /** A grouping is determined by the values it groups. */
  lemma GroupedInFoursUnique(r1: seq<Counts>, r2: seq<Counts>, values: seq<nat>)
    requires GroupedInFours(r1, values) && GroupedInFours(r2, values)
    ensures r1 == r2
  {
    forall i | 0 <= i < |r1|
      ensures r1[i] == r2[i]
    {
      assert r1[i][0] == r2[i][0] && r1[i][1] == r2[i][1];
      assert r1[i][2] == r2[i][2] && r1[i][3] == r2[i][3];
    }
  }

  predicate AllHaveDigits(tokens: seq<string>)
  {
    forall i :: 0 <= i < |tokens| ==> DigitsOf(tokens[i]) != []
  }

  function TokenValues(tokens: seq<string>): (values: seq<nat>)
    requires AllHaveDigits(tokens)
    ensures |values| == |tokens|
    ensures forall i :: 0 <= i < |tokens| ==> values[i] == TokenValue(tokens[i])
  {
    seq(|tokens|, i requires 0 <= i < |tokens| => TokenValue(tokens[i]))
  }

  /** What reading a token stream yields: the records, or the exception of
      the first token without digits. */
  function ParseRecords(tokens: seq<string>): Result<seq<Counts>, ParseError>
  {
    if AllHaveDigits(tokens) then Ok(GroupInFours(TokenValues(tokens))) else Err(InvalidArgument)
  }

  /** The character filter of the constructor's inner loop. */
  method ExtractDigits(token: string) returns (digits: string)
    ensures digits == DigitsOf(token)
  {
    digits := "";
    var i := 0;
    while i < |token|
      invariant 0 <= i <= |token|
      invariant digits == DigitsOf(token[..i])
    {
      var c := token[i];
      assert token[..i + 1][..i] == token[..i];
      if IsDigit(c) {
        digits := digits + [c];
      }
      i := i + 1;
    }
    assert token[..|token|] == token;
  }

  /** The constructor's token loop: `counter` counts tokens, `sub_counter`
      the position inside the current record, and a new all-zero record is
      pushed whenever `counter` is a multiple of four. */
  method ParseTokens(tokens: seq<string>) returns (res: Result<seq<Counts>, ParseError>)
    ensures res.Err? <==> exists i :: 0 <= i < |tokens| && DigitsOf(tokens[i]) == []
    ensures res.Ok? ==> GroupedInFours(res.value, TokenValues(tokens))
    ensures res == ParseRecords(tokens)
  {
    var parsed: seq<Counts> := [];
    var counter := 0;
    var subCounter := 0;
    while counter < |tokens|
      invariant 0 <= counter <= |tokens|
      invariant AllHaveDigits(tokens[..counter])
      invariant counter == 0 ==> parsed == [] && subCounter == 0
      invariant counter > 0 ==> 1 <= subCounter <= 4 && counter == 4 * (|parsed| - 1) + subCounter
      invariant GroupedInFours(parsed, TokenValues(tokens[..counter]))
    {
      var digits := ExtractDigits(tokens[counter]);
      var value := Stoi(digits);
      if value.Err? {
        assert !AllHaveDigits(tokens) by {
          assert DigitsOf(tokens[counter]) == [];
        }
        return Err(value.error);
      }
      ghost var values := TokenValues(tokens[..counter]);
      parsed, subCounter := StoreValue(parsed, subCounter, counter, value.value, values);
      counter := counter + 1;
      assert tokens[..counter] == tokens[..counter - 1] + [tokens[counter - 1]];
      assert TokenValues(tokens[..counter]) == values + [value.value];
    }
    assert tokens[..counter] == tokens;
    GroupedInFoursUnique(parsed, GroupInFours(TokenValues(tokens)), TokenValues(tokens));
    res := Ok(parsed);
  }

  /** One token of the constructor's loop: a new all-zero record when
      `counter` is a multiple of four, then the value stored at `sub_counter`
      of the last record. */
  method StoreValue(parsed: seq<Counts>, subCounter: nat, counter: nat, value: nat, ghost values: seq<nat>)
    returns (parsed': seq<Counts>, subCounter': nat)
    requires counter == |values| && GroupedInFours(parsed, values)
    requires counter == 0 ==> parsed == [] && subCounter == 0
    requires counter > 0 ==> 1 <= subCounter <= 4 && counter == 4 * (|parsed| - 1) + subCounter
    ensures 1 <= subCounter' <= 4 && counter + 1 == 4 * (|parsed'| - 1) + subCounter'
    ensures GroupedInFours(parsed', values + [value])
  {
    parsed', subCounter' := parsed, subCounter;
    if counter % 4 == 0 {
      subCounter' := 0;
      parsed' := parsed' + [ZERO_COUNTS];
    }
    var last := |parsed'| - 1;
    parsed' := parsed'[last := parsed'[last][subCounter' := value]];
    subCounter' := subCounter' + 1;
    RecordCount(counter + 1, |parsed'|, subCounter');
  }

  /** `n` records whose last one holds `sub` of its four values hold
      `4 (n - 1) + sub` values, a count that rounds up to `n` records. */
  lemma RecordCount(count: nat, n: nat, sub: nat)
    requires count == 0 ==> n == 0
    requires count > 0 ==> 1 <= sub <= 4 && n >= 1 && count == 4 * (n - 1) + sub
    ensures n == (count + 3) / 4
  {
    if count > 0 {
      assert count + 3 == 4 * n + (sub - 1);
    }
  }

  /** Non-digit characters around a token's digits do not change what it
      contributes: "[[584859," reads as 584859 and "-3" as 3. */
  lemma {:induction false} DigitsOfAppend(a: string, b: string)
    ensures DigitsOf(a + b) == DigitsOf(a) + DigitsOf(b)
  {
    if b == [] {
      assert a + b == a;
    } else {
      assert (a + b)[..|a + b| - 1] == a + b[..|b| - 1];
      DigitsOfAppend(a, b[..|b| - 1]);
    }
  }

  lemma {:induction false} DigitsOfNoDigits(s: string)
    requires forall i :: 0 <= i < |s| ==> !IsDigit(s[i])
    ensures DigitsOf(s) == []
  {
    if s != [] {
      DigitsOfNoDigits(s[..|s| - 1]);
    }
  }

  lemma {:induction false} DigitsOfDigits(s: string)
    requires forall i :: 0 <= i < |s| ==> IsDigit(s[i])
    ensures DigitsOf(s) == s
  {
    if s != [] {
      DigitsOfDigits(s[..|s| - 1]);
    }
  }

  lemma PunctuationIgnored(prefix: string, ds: string, suffix: string)
    requires forall i :: 0 <= i < |prefix| ==> !IsDigit(prefix[i])
    requires forall i :: 0 <= i < |suffix| ==> !IsDigit(suffix[i])
    requires forall i :: 0 <= i < |ds| ==> IsDigit(ds[i])
    ensures DigitsOf(prefix + ds + suffix) == ds
  {
    DigitsOfAppend(prefix + ds, suffix);
    DigitsOfAppend(prefix, ds);
    DigitsOfNoDigits(prefix);
    DigitsOfNoDigits(suffix);
    DigitsOfDigits(ds);
  }
}
