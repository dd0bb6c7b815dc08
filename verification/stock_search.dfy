/**
 The two input handlers of the stock-selection form. A handler's effect is
 the list of calls it makes on the callbacks it was given; the owner of the
 selected stock and time frame is modelled as storing each forwarded value.
 */
module StockSearch {
  import opened JsParseInt

  /** Bounds of the accepted time frame, in minutes, both inclusive. */
  const MinMinutes := 5
  const MaxMinutes := 60

  /** A call made on one of the component's callback props. */
  datatype Call =
    | TimeFrameChange(minutes: int)   // onTimeFrameChange(value)
    | StockSelect(ticker: string)     // onStockSelect(value)

  /** Whether a parse result is a number inside the accepted range. */
  predicate InRange(p: Parsed) {
    p.Num? && MinMinutes <= p.value <= MaxMinutes
  }

  /**
   The time-frame input changed to `text`: the parsed value is forwarded when
   it is a number from 5 to 60, and otherwise nothing is called (no clamping).
   */
  function HandleTimeChange(text: string): (calls: seq<Call>)
    ensures |calls| <= 1
    ensures |calls| == 1 <==> InRange(ParseInt(text))
    ensures |calls| == 1 ==> calls[0] == TimeFrameChange(ParseInt(text).value)
  {
    var value := ParseInt(text);
    if value.Num? && value.value >= MinMinutes && value.value <= MaxMinutes then
      [TimeFrameChange(value.value)]
    else
      []
  }

  /** The stock selector changed to `ticker`: it is forwarded unchanged. */
  function HandleStockChange(ticker: string): (calls: seq<Call>)
    ensures calls == [StockSelect(ticker)]
  {
    [StockSelect(ticker)]
  }

  /** The values the form's owner holds and passes back as props. */
  datatype Selection = Selection(selectedStock: string, timeFrame: int)

  /** The owner stores each forwarded value, in call order. */
  function Apply(sel: Selection, calls: seq<Call>): (sel': Selection)
    ensures (forall i :: 0 <= i < |calls| ==> calls[i].TimeFrameChange?) ==> sel'.selectedStock == sel.selectedStock
    decreases |calls|
  {
    if |calls| == 0 then sel
    else
      var next := match calls[0]
        case TimeFrameChange(m) => sel.(timeFrame := m)
        case StockSelect(t) => sel.(selectedStock := t);
      Apply(next, calls[1..])
  }

  /** One user edit of the form. */
  datatype Input = TimeInput(text: string) | StockInput(ticker: string)

  /** The calls the form makes for one edit. */
  function Handle(input: Input): (calls: seq<Call>)
    ensures |calls| <= 1
  {
    match input
    case TimeInput(text) => HandleTimeChange(text)
    case StockInput(ticker) => HandleStockChange(ticker)
  }

  /** The selection after a series of edits. */
  function Run(sel: Selection, inputs: seq<Input>): (sel': Selection)
    ensures (forall i :: 0 <= i < |inputs| ==> inputs[i].TimeInput?) ==> sel'.selectedStock == sel.selectedStock
    decreases |inputs|
  {
    if |inputs| == 0 then sel else Run(Apply(sel, Handle(inputs[0])), inputs[1..])
  }

  /**
   A time-frame edit either installs the parsed value or, when rejected,
   leaves the selection exactly as it was; the selected stock never changes.
   */
  lemma TimeEditEffect(sel: Selection, text: string)
    ensures Apply(sel, HandleTimeChange(text)).selectedStock == sel.selectedStock
    ensures InRange(ParseInt(text)) ==> Apply(sel, HandleTimeChange(text)).timeFrame == ParseInt(text).value
    ensures !InRange(ParseInt(text)) ==> Apply(sel, HandleTimeChange(text)) == sel
  {
    var calls := HandleTimeChange(text);
    if |calls| == 1 {
      assert calls[1..] == [];
    }
  }

  /** A stock edit installs exactly the chosen ticker and keeps the time frame. */
  lemma StockEditEffect(sel: Selection, ticker: string)
    ensures Apply(sel, HandleStockChange(ticker)) == Selection(ticker, sel.timeFrame)
  {
    assert HandleStockChange(ticker)[1..] == [];
  }

  /**
   The spelling of any integer, optionally followed by text that does not
   continue the number ("12.7", "30 min"), is accepted exactly when the integer
   lies from 5 to 60, and then forwarded as that integer. No step of 5 is
   enforced: 7 is accepted like 10.
   */
  lemma TimeChangeOfNumber(n: int, rest: string)
    requires |rest| == 0 || !IsDigit(rest[0])
    ensures HandleTimeChange(Show(n) + rest) == if MinMinutes <= n <= MaxMinutes then [TimeFrameChange(n)] else []
  {
    var text := Show(n) + rest;
    assert ParseInt(text) == Num(n) by {
      assert "" + Show(n) + rest == text;
      ParseShow("", n, rest);
    }
  }

  /** Text with no digit after its white space and sign never calls back. */
  lemma TimeChangeOfNonNumber(ws: string, sign: string, rest: string)
    requires AllWhiteSpace(ws)
    requires sign == "" || sign == "-" || sign == "+"
    requires |rest| == 0 || !IsDigit(rest[0])
    requires sign == "" && |rest| != 0 ==> !IsStrWhiteSpace(rest[0]) && rest[0] != '-' && rest[0] != '+'
    ensures HandleTimeChange(ws + (sign + rest)) == []
  {
    ParseNoDigits(ws, sign, rest);
  }

  /**
   Starting from a time frame inside the range, no series of edits can leave
   it: rejected input changes nothing and accepted input is itself in range.
   */
  lemma {:induction false} TimeFrameStaysInRange(sel: Selection, inputs: seq<Input>)
    requires MinMinutes <= sel.timeFrame <= MaxMinutes
    ensures MinMinutes <= Run(sel, inputs).timeFrame <= MaxMinutes
    decreases |inputs|
  {
    if |inputs| != 0 {
      var next := Apply(sel, Handle(inputs[0]));
      match inputs[0] {
        case TimeInput(text) => TimeEditEffect(sel, text);
        case StockInput(ticker) => StockEditEffect(sel, ticker);
      }
      TimeFrameStaysInRange(next, inputs[1..]);
    }
  }

  /** A fraction is cut to its integer part: "12.7" sets 12 minutes. */
  lemma FractionIsTruncated()
    ensures HandleTimeChange("12.7") == [TimeFrameChange(12)]
  {
    ParseUnsignedDigits("12", ".7");
    assert "12" + ".7" == "12.7";
  }

  /** The step of 5 shown by the input is not enforced: "7" sets 7 minutes. */
  lemma OffStepValueAccepted()
    ensures HandleTimeChange("7") == [TimeFrameChange(7)]
  {
    ParseUnsignedDigits("7", "");
    assert "7" + "" == "7";
  }

  /** Above-range and non-numeric text is dropped, not clamped. */
  lemma RejectedExamples()
    ensures HandleTimeChange("61") == []
    ensures HandleTimeChange("abc") == []
  {
    assert HandleTimeChange("61") == [] by {
      ParseUnsignedDigits("61", "");
      assert "61" + "" == "61";
    }
    assert HandleTimeChange("abc") == [] by {
      ParseNoDigits("", "", "abc");
      assert "" + ("" + "abc") == "abc";
    }
  }
}
