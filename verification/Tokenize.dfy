// The token estimator of internal/tokenize/tokenize.go, in quarters of a token.
module Tokenize {
  // Whether a character counts as a whole token is a table of the unicode package.
  type Script = char -> bool

  function Quarters(cjk: Script, text: string): nat {
    if text == [] then 0 else
    Quarters(cjk, text[..|text| - 1]) + if cjk(text[|text| - 1]) then 4 else 1
  }

  function CeilQuarters(q: nat): nat {
    (q + 3) / 4
  }

  function Estimate(cjk: Script, text: string): nat {
    CeilQuarters(Quarters(cjk, text))
  }

  function Wide(cjk: Script, text: string): nat {
    if text == [] then 0 else Wide(cjk, text[..|text| - 1]) + if cjk(text[|text| - 1]) then 1 else 0
  }

  method EstimateText(cjk: Script, text: string) returns (tokens: nat)
    ensures tokens == Estimate(cjk, text)
  {
    var quarters: nat := 0;
    for i := 0 to |text|
      invariant quarters == Quarters(cjk, text[..i])
    {
      assert text[..i + 1][..i] == text[..i];
      quarters := quarters + if cjk(text[i]) then 4 else 1;
    }
    assert text[..|text|] == text;
    return CeilQuarters(quarters);
  }

  function WideAt(cjk: Script, text: string): set<int> {
    set i | 0 <= i < |text| && cjk(text[i])
  }

  lemma {:induction false} WideCountsPositions(cjk: Script, text: string)
    ensures Wide(cjk, text) == |WideAt(cjk, text)|
  {
    if text != [] {
      var n := |text| - 1;
      WideCountsPositions(cjk, text[..n]);
      assert WideAt(cjk, text) == WideAt(cjk, text[..n]) + if cjk(text[n]) then {n} else {};
    }
  }

  /** One token per wide character and one per four of the others, rounded up. */
  lemma {:induction false} EstimateCountsCharacters(cjk: Script, text: string)
    ensures Wide(cjk, text) <= |text|
    ensures Quarters(cjk, text) == 4 * Wide(cjk, text) + (|text| - Wide(cjk, text))
    ensures Estimate(cjk, text) == Wide(cjk, text) + CeilQuarters(|text| - Wide(cjk, text))
  {
    if text != [] {
      EstimateCountsCharacters(cjk, text[..|text| - 1]);
    }
  }

  lemma {:induction false} QuartersConcat(cjk: Script, a: string, b: string)
    ensures Quarters(cjk, a + b) == Quarters(cjk, a) + Quarters(cjk, b)
  {
    if b == [] {
      assert a + b == a;
    } else {
      QuartersConcat(cjk, a, b[..|b| - 1]);
      assert (a + b)[..|a + b| - 1] == a + b[..|b| - 1];
    }
  }

  function Total(cjk: Script, texts: seq<string>): nat {
    if texts == [] then 0 else Total(cjk, texts[..|texts| - 1]) + Estimate(cjk, texts[|texts| - 1])
  }

  function Concat(texts: seq<string>): string {
    if texts == [] then [] else Concat(texts[..|texts| - 1]) + texts[|texts| - 1]
  }

  /** Estimating texts one by one never falls below estimating them joined, and
      exceeds it by at most three quarters of a token per text. */
  lemma {:induction false} SplittingCostsRounding(cjk: Script, texts: seq<string>)
    ensures Estimate(cjk, Concat(texts)) <= Total(cjk, texts)
    ensures Total(cjk, texts) <= Estimate(cjk, Concat(texts)) + 3 * |texts| / 4
  {
    TotalByQuarters(cjk, texts);
  }

  lemma {:induction false} TotalByQuarters(cjk: Script, texts: seq<string>)
    ensures Quarters(cjk, Concat(texts)) <= 4 * Total(cjk, texts) <= Quarters(cjk, Concat(texts)) + 3 * |texts|
  {
    if texts != [] {
      TotalByQuarters(cjk, texts[..|texts| - 1]);
      QuartersConcat(cjk, Concat(texts[..|texts| - 1]), texts[|texts| - 1]);
    }
  }

  // ---- request bodies ----

  // A JSON value as far as the estimator looks into it.
  datatype Value = Text(text: string) | Items(items: seq<Item>) | Other
  datatype Item = Str(text: string) | NotText

  const MESSAGE_OVERHEAD := 4

  function Texts(items: seq<Item>): seq<string> {
    if items == [] then [] else
    var last := items[|items| - 1];
    Texts(items[..|items| - 1]) + if last.Str? then [last.text] else []
  }

  function ValueTexts(v: Value): seq<string> {
    match v
    case Text(text) => [text]
    case Items(items) => Texts(items)
    case Other => []
  }

  lemma TotalSnoc(cjk: Script, texts: seq<string>, text: string)
    ensures Total(cjk, texts + [text]) == Total(cjk, texts) + Estimate(cjk, text)
  {
    assert (texts + [text])[..|texts|] == texts;
  }

  function Sum(costs: seq<nat>): nat {
    if costs == [] then 0 else Sum(costs[..|costs| - 1]) + costs[|costs| - 1]
  }

  // What the items at each position cost.
  function ItemCosts(cjk: Script, items: seq<Item>): (costs: seq<nat>)
    ensures |costs| == |items|
  {
    seq(|items|, i requires 0 <= i < |items| => if items[i].Str? then Estimate(cjk, items[i].text) else 0)
  }

  lemma {:induction false} TextsCost(cjk: Script, items: seq<Item>)
    ensures Total(cjk, Texts(items)) == Sum(ItemCosts(cjk, items))
  {
    if items != [] {
      var n := |items| - 1;
      TextsCost(cjk, items[..n]);
      assert ItemCosts(cjk, items)[..n] == ItemCosts(cjk, items[..n]);
      if items[n].Str? {
        TotalSnoc(cjk, Texts(items[..n]), items[n].text);
      } else {
        assert Texts(items[..n]) + [] == Texts(items[..n]);
      }
    }
  }

  // What a value costs: a text by itself, a list by the texts at its positions, anything
  // else nothing.
  function ValueCost(cjk: Script, v: Value): nat {
    match v
    case Text(text) => Estimate(cjk, text)
    case Items(items) => Sum(ItemCosts(cjk, items))
    case Other => 0
  }

  lemma ValueTextsCost(cjk: Script, v: Value)
    ensures Total(cjk, ValueTexts(v)) == ValueCost(cjk, v)
  {
    match v
    case Text(text) =>
      assert [text][..0] == [];
    case Items(items) => TextsCost(cjk, items);
    case Other =>
  }

  /** A text is estimated as it is, a list as the sum over its positions of the texts
      there, anything else at nothing. */
  method EstimatePrompt(cjk: Script, v: Value) returns (total: nat)
    ensures total == Total(cjk, ValueTexts(v))
    ensures v.Text? ==> total == Estimate(cjk, v.text)
    ensures v.Items? ==>
              total == Sum(seq(|v.items|, i requires 0 <= i < |v.items| =>
                                 if v.items[i].Str? then Estimate(cjk, v.items[i].text) else 0))
    ensures v.Other? ==> total == 0
  {
    ValueTextsCost(cjk, v);
    total := 0;
    match v
    case Text(text) =>
      total := EstimateText(cjk, text);
      TotalSnoc(cjk, [], text);
      assert [] + [text] == [text];
    case Items(items) =>
      for i := 0 to |items|
        invariant total == Total(cjk, Texts(items[..i]))
      {
        assert items[..i + 1][..i] == items[..i];
        if items[i].Str? {
          TotalSnoc(cjk, Texts(items[..i]), items[i].text);
          var t := EstimateText(cjk, items[i].text);
          total := total + t;
        } else {
          assert Texts(items[..i]) + [] == Texts(items[..i]);
        }
      }
      assert items[..|items|] == items;
    case Other =>
  }

  function ChatTotal(cjk: Script, contents: seq<Value>): nat {
    if contents == [] then 0 else
    ChatTotal(cjk, contents[..|contents| - 1]) + MESSAGE_OVERHEAD + Total(cjk, ValueTexts(contents[|contents| - 1]))
  }

  method EstimateChatPrompt(cjk: Script, contents: seq<Value>) returns (total: nat)
    ensures total == ChatTotal(cjk, contents)
  {
    total := 0;
    for i := 0 to |contents|
      invariant total == ChatTotal(cjk, contents[..i])
    {
      assert contents[..i + 1][..i] == contents[..i];
      var t := EstimatePrompt(cjk, contents[i]);
      total := total + MESSAGE_OVERHEAD + t;
    }
    assert contents[..|contents|] == contents;
  }

  // What each message costs.
  function MessageCosts(cjk: Script, contents: seq<Value>): (costs: seq<nat>)
    ensures |costs| == |contents|
  {
    seq(|contents|, i requires 0 <= i < |contents| => 4 + ValueCost(cjk, contents[i]))
  }

  /** A chat costs four tokens a message and what each message's content costs. */
  lemma {:induction false} ChatCostsByMessage(cjk: Script, contents: seq<Value>)
    ensures ChatTotal(cjk, contents) == Sum(MessageCosts(cjk, contents))
  {
    if contents != [] {
      var n := |contents| - 1;
      ChatCostsByMessage(cjk, contents[..n]);
      ValueTextsCost(cjk, contents[n]);
      assert MessageCosts(cjk, contents)[..n] == MessageCosts(cjk, contents[..n]);
    }
  }

  function AllTexts(contents: seq<Value>): seq<string> {
    if contents == [] then [] else AllTexts(contents[..|contents| - 1]) + ValueTexts(contents[|contents| - 1])
  }

  lemma {:induction false} TotalConcat(cjk: Script, a: seq<string>, b: seq<string>)
    ensures Total(cjk, a + b) == Total(cjk, a) + Total(cjk, b)
  {
    if b == [] {
      assert a + b == a;
    } else {
      TotalConcat(cjk, a, b[..|b| - 1]);
      assert (a + b)[..|a + b| - 1] == a + b[..|b| - 1];
    }
  }

  /** A chat is estimated at four tokens a message and its texts one by one, so within
      the rounding of its texts joined. */
  lemma {:induction false} ChatCountsMessagesAndTexts(cjk: Script, contents: seq<Value>)
    ensures ChatTotal(cjk, contents) == MESSAGE_OVERHEAD * |contents| + Total(cjk, AllTexts(contents))
  {
    if contents != [] {
      ChatCountsMessagesAndTexts(cjk, contents[..|contents| - 1]);
      TotalConcat(cjk, AllTexts(contents[..|contents| - 1]), ValueTexts(contents[|contents| - 1]));
    }
  }

  // ---- completions ----

  const MAX_COMPLETION := 16384
  const DEFAULT_COMPLETION := 4096
  const TWO63: int := 0x8000_0000_0000_0000

  // Go's int64 arithmetic wraps around.
  function Wrap64(x: int): int {
    (x + TWO63) % (2 * TWO63) - TWO63
  }

  function Effective(v: int, fallback: int): int {
    if v <= 0 then fallback else v
  }

  function EstimateCompletion(maxTokens: int, n: int): int {
    var total := Wrap64(Effective(maxTokens, DEFAULT_COMPLETION) * Effective(n, 1));
    if total > MAX_COMPLETION then MAX_COMPLETION else total
  }

  lemma WrapInRange(x: int)
    ensures -TWO63 <= Wrap64(x) < TWO63
    ensures -TWO63 <= x < TWO63 ==> Wrap64(x) == x
  {
  }

  /** The reservation is the product, capped, exactly when the product fits 64 bits
      or wraps onto something beyond the cap; a request can reserve a negative amount
      only by overflowing. */
  lemma CompletionIsCappedExactlyWhen(maxTokens: int, n: int)
    ensures var product := Effective(maxTokens, DEFAULT_COMPLETION) * Effective(n, 1);
            && product >= 1
            && (EstimateCompletion(maxTokens, n) == (if product > MAX_COMPLETION then MAX_COMPLETION else product)
                <==> product < TWO63 || Wrap64(product) >= MAX_COMPLETION)
            && (product < TWO63 ==> 1 <= EstimateCompletion(maxTokens, n) <= MAX_COMPLETION)
  {
    var a, b := Effective(maxTokens, DEFAULT_COMPLETION), Effective(n, 1);
    Positive(a, b);
    WrapInRange(a * b);
  }

  lemma Positive(a: int, b: int)
    requires a >= 1 && b >= 1
    ensures a * b >= 1
  {
  }

  /** Without overflow: 4096 tokens for one completion unless the request says more or
      fewer, times the completions asked for, and at most 16384. */
  lemma CompletionDefaults(maxTokens: int, n: int)
    requires maxTokens < 0x1_0000_0000 && n < 0x4000_0000
    ensures EstimateCompletion(maxTokens, n) ==
            var product := (if maxTokens > 0 then maxTokens else 4096) * (if n > 0 then n else 1);
            if product > 16384 then 16384 else product
  {
    var a, b := Effective(maxTokens, DEFAULT_COMPLETION), Effective(n, 1);
    ProductFits(a, b);
    CompletionIsCappedExactlyWhen(maxTokens, n);
  }

  lemma ProductFits(a: int, b: int)
    requires 1 <= a < 0x1_0000_0000 && 1 <= b < 0x4000_0000
    ensures a * b < TWO63
  {
    ProductGrows(a, 0x1_0000_0000, b, 0x4000_0000);
  }

  lemma ProductGrows(a: int, a': int, b: int, b': int)
    requires 0 <= a <= a' && 0 <= b <= b'
    ensures a * b <= a' * b'
  {
    assert a * b <= a * b' <= a' * b';
  }

  /** An overflowing request turns the reservation negative. */
  lemma OverflowReservesNegative()
    ensures EstimateCompletion(0x1_0000_0000, 0x8000_0000) == -TWO63
  {
    assert 0x1_0000_0000 * 0x8000_0000 == TWO63;
  }

  /** Every chat or completion reservation is positive when the product fits. */
  lemma ReservationIsPositive(prompt: nat, maxTokens: int, n: int)
    requires Effective(maxTokens, DEFAULT_COMPLETION) * Effective(n, 1) < TWO63
    ensures prompt + EstimateCompletion(maxTokens, n) >= 1
  {
    CompletionIsCappedExactlyWhen(maxTokens, n);
  }
}
