/**
  The ingest coordinator: decodes every line of a batch, keeps every
  accepted order and one error message per rejected line, commits the
  accepted orders to the store in one call, and forwards queries to it.
*/
module OrdersService {
  import opened Wrappers
  import opened JsString
  import opened OrderModel
  import opened OrderProcessing
  import opened OrderStorage

  /** The error text for line number `lineNo` (1-based), quoting the original line. */
  function ErrorMessage(lineNo: nat, line: string, message: string): (msg: string) {
    "Linha " + DecimalString(lineNo) + ": \"" + line + "\" - Erro: " + message
  }

  /** The message starts with "Linha " and ends with the decoder's own message. */
  lemma ErrorMessageShape(lineNo: nat, line: string, message: string)
    ensures var r := ErrorMessage(lineNo, line, message);
      |r| >= 6 + |message| && r[..6] == "Linha " && r[|r| - |message|..] == message
  {
    var r := ErrorMessage(lineNo, line, message);
    assert r == "Linha " + (DecimalString(lineNo) + ": \"" + line + "\" - Erro: ") + message;
  }

  /** Reads back the line number an error message starts with. */
  function LineNumberOf(msg: string): (r: Option<nat>)
    ensures r.Some? ==> |msg| > 6 && msg[..6] == "Linha "
  {
    if |msg| <= 6 || msg[..6] != "Linha " then None
    else
      var digits := msg[6..][..DigitRun(msg[6..])];
      if digits == [] then None else Some(DigitsValue(digits))
  }

  /** Every error message names its 1-based line number, and it can be read back. */
  lemma ErrorMessageLineNumber(lineNo: nat, line: string, message: string)
    ensures LineNumberOf(ErrorMessage(lineNo, line, message)) == Some(lineNo)
  {
    var d := DecimalString(lineNo);
    var rest := ": \"" + line + "\" - Erro: " + message;
    var msg := ErrorMessage(lineNo, line, message);
    assert msg == "Linha " + (d + rest);
    assert msg[6..] == d + rest;
    DigitRunOfDigitsThen(d, rest);
    assert msg[6..][..|d|] == d;
    DecimalStringRoundTrip(lineNo);
  }

  /** The verdict of `decode` on each line, in order. */
  function Verdicts(lines: seq<string>, decode: string -> Result<Order, string>): (rs: seq<Result<Order, string>>)
    ensures |rs| == |lines|
  {
    if lines == [] then []
    else Verdicts(lines[..|lines| - 1], decode) + [decode(lines[|lines| - 1])]
  }

  lemma {:induction false} VerdictsAt(lines: seq<string>, decode: string -> Result<Order, string>, i: nat)
    requires i < |lines|
    ensures Verdicts(lines, decode)[i] == decode(lines[i])
  {
    var n := |lines| - 1;
    if i < n {
      VerdictsAt(lines[..n], decode, i);
      assert lines[..n][i] == lines[i];
    }
  }

  lemma VerdictsSnoc(lines: seq<string>, decode: string -> Result<Order, string>, i: nat)
    requires i < |lines|
    ensures Verdicts(lines[..i + 1], decode) == Verdicts(lines[..i], decode) + [decode(lines[i])]
  {
    assert lines[..i + 1][..i] == lines[..i];
  }

  /** The orders of the successful verdicts, in order. */
  function Accepted(rs: seq<Result<Order, string>>): (r: seq<Order>)
    ensures |r| <= |rs|
  {
    if rs == [] then []
    else (if rs[0].Success? then [rs[0].value] else []) + Accepted(rs[1..])
  }

  /**
    One error message per failed verdict, in order; `rs[i]` is the verdict
    on `lines[i]`, whose line number is `first + i`.
  */
  function ErrorsFrom(lines: seq<string>, rs: seq<Result<Order, string>>, first: nat): (r: seq<string>)
    requires |lines| == |rs|
    ensures |r| <= |rs|
  {
    if rs == [] then []
    else
      (if rs[0].Failure? then [ErrorMessage(first, lines[0], rs[0].error)] else []) +
      ErrorsFrom(lines[1..], rs[1..], first + 1)
  }

  /**
    How a verdict is handled does not depend on earlier ones: the orders
    accepted from a concatenation are those of each part.
  */
  lemma {:induction false} AcceptedAppend(a: seq<Result<Order, string>>, b: seq<Result<Order, string>>)
    ensures Accepted(a + b) == Accepted(a) + Accepted(b)
  {
    if a != [] {
      assert (a + b)[1..] == a[1..] + b;
      AcceptedAppend(a[1..], b);
    } else {
      assert a + b == b;
    }
  }

  /** Likewise for errors, with the line numbers of the second part shifted by the length of the first. */
  lemma {:induction false} ErrorsAppend(la: seq<string>, a: seq<Result<Order, string>>,
                                        lb: seq<string>, b: seq<Result<Order, string>>, first: nat)
    requires |la| == |a| && |lb| == |b|
    ensures ErrorsFrom(la + lb, a + b, first) == ErrorsFrom(la, a, first) + ErrorsFrom(lb, b, first + |a|)
  {
    if a != [] {
      assert (a + b)[1..] == a[1..] + b;
      assert (la + lb)[1..] == la[1..] + lb;
      ErrorsAppend(la[1..], a[1..], lb, b, first + 1);
    } else {
      assert a + b == b && la + lb == lb;
    }
  }

  /** Every verdict ends up in exactly one of the two lists. */
  lemma {:induction false} PartitionCount(lines: seq<string>, rs: seq<Result<Order, string>>, first: nat)
    requires |lines| == |rs|
    ensures |Accepted(rs)| + |ErrorsFrom(lines, rs, first)| == |rs|
  {
    if rs != [] {
      PartitionCount(lines[1..], rs[1..], first + 1);
    }
  }

  /** The accepted orders are exactly the values of the successful verdicts. */
  lemma {:induction false} AcceptedMembers(rs: seq<Result<Order, string>>, o: Order)
    ensures o in Accepted(rs) <==> Success(o) in rs
  {
    if rs != [] {
      AcceptedMembers(rs[1..], o);
      assert rs == [rs[0]] + rs[1..];
    }
  }

  /**
    The error list holds exactly the messages of the failed verdicts: the
    verdict on line `i` (0-based) contributes the message numbered
    `first + i` that quotes `lines[i]` as given.
  */
  lemma {:induction false} ErrorsMembers(lines: seq<string>, rs: seq<Result<Order, string>>, first: nat, msg: string)
    requires |lines| == |rs|
    ensures msg in ErrorsFrom(lines, rs, first) <==>
      exists i :: 0 <= i < |rs| && rs[i].Failure? && msg == ErrorMessage(first + i, lines[i], rs[i].error)
  {
    if rs != [] {
      var lt, rt := lines[1..], rs[1..];
      var head := if rs[0].Failure? then [ErrorMessage(first, lines[0], rs[0].error)] else [];
      assert ErrorsFrom(lines, rs, first) == head + ErrorsFrom(lt, rt, first + 1);
      assert msg in ErrorsFrom(lines, rs, first) <==> msg in head || msg in ErrorsFrom(lt, rt, first + 1);
      ErrorsMembers(lt, rt, first + 1, msg);
      if exists i :: 0 <= i < |rs| && rs[i].Failure? && msg == ErrorMessage(first + i, lines[i], rs[i].error) {
        var i :| 0 <= i < |rs| && rs[i].Failure? && msg == ErrorMessage(first + i, lines[i], rs[i].error);
        if i > 0 {
          assert rt[i - 1] == rs[i] && lt[i - 1] == lines[i];
          assert msg in ErrorsFrom(lt, rt, first + 1);
        } else {
          assert msg in head;
        }
      }
      if msg in head {
        assert rs[0].Failure? && msg == ErrorMessage(first + 0, lines[0], rs[0].error);
      }
      if exists i :: 0 <= i < |rt| && rt[i].Failure? && msg == ErrorMessage(first + 1 + i, lt[i], rt[i].error) {
        var i :| 0 <= i < |rt| && rt[i].Failure? && msg == ErrorMessage(first + 1 + i, lt[i], rt[i].error);
        assert rs[i + 1] == rt[i] && lines[i + 1] == lt[i];
      }
    }
  }

  /**
    Processing is line by line and never stops early: the lists for the
    first `i + 1` lines are those for the first `i` lines plus the outcome
    of line `i` (an order, or one error message numbered `i + 1`).
  */
  lemma ListsGrowByLine(lines: seq<string>, decode: string -> Result<Order, string>, i: nat)
    requires i < |lines|
    ensures var before, after := Verdicts(lines[..i], decode), Verdicts(lines[..i + 1], decode);
      && Accepted(after) == Accepted(before) +
           (if decode(lines[i]).Success? then [decode(lines[i]).value] else [])
      && ErrorsFrom(lines[..i + 1], after, 1) == ErrorsFrom(lines[..i], before, 1) +
           (if decode(lines[i]).Failure? then [ErrorMessage(i + 1, lines[i], decode(lines[i]).error)] else [])
  {
    var before := Verdicts(lines[..i], decode);
    var v := decode(lines[i]);
    VerdictsSnoc(lines, decode, i);
    AcceptedAppend(before, [v]);
    ErrorsAppend(lines[..i], before, [lines[i]], [v], 1);
    assert lines[..i + 1] == lines[..i] + [lines[i]];
  }

  /** The accepted orders of a batch of lines are the decoded orders of its accepted lines. */
  lemma AcceptedLines(lines: seq<string>, decode: string -> Result<Order, string>, o: Order)
    ensures o in Accepted(Verdicts(lines, decode)) <==> exists i :: 0 <= i < |lines| && decode(lines[i]) == Success(o)
  {
    var rs := Verdicts(lines, decode);
    AcceptedMembers(rs, o);
    if Success(o) in rs {
      var i :| 0 <= i < |rs| && rs[i] == Success(o);
      VerdictsAt(lines, decode, i);
    }
    if exists i :: 0 <= i < |lines| && decode(lines[i]) == Success(o) {
      var i :| 0 <= i < |lines| && decode(lines[i]) == Success(o);
      VerdictsAt(lines, decode, i);
      assert rs[i] == Success(o);
    }
  }

  /** The errors of a batch of lines are the decoder's messages, one per rejected line, numbered from 1. */
  lemma ErrorLines(lines: seq<string>, decode: string -> Result<Order, string>, msg: string)
    ensures msg in ErrorsFrom(lines, Verdicts(lines, decode), 1) <==>
      exists i :: 0 <= i < |lines| && decode(lines[i]).Failure? &&
        msg == ErrorMessage(i + 1, lines[i], decode(lines[i]).error)
  {
    var rs := Verdicts(lines, decode);
    ErrorsMembers(lines, rs, 1, msg);
    if exists i :: 0 <= i < |rs| && rs[i].Failure? && msg == ErrorMessage(1 + i, lines[i], rs[i].error) {
      var i :| 0 <= i < |rs| && rs[i].Failure? && msg == ErrorMessage(1 + i, lines[i], rs[i].error);
      VerdictsAt(lines, decode, i);
    }
    if exists i :: 0 <= i < |lines| && decode(lines[i]).Failure? &&
        msg == ErrorMessage(i + 1, lines[i], decode(lines[i]).error) {
      var i :| 0 <= i < |lines| && decode(lines[i]).Failure? &&
        msg == ErrorMessage(i + 1, lines[i], decode(lines[i]).error);
      VerdictsAt(lines, decode, i);
      assert rs[i].Failure? && msg == ErrorMessage(1 + i, lines[i], rs[i].error);
    }
  }

  /** The value `processFile` resolves to. */
  datatype IngestResult = IngestResult(successfulOrders: seq<Order>, errors: seq<string>)

  /** What `processFile` computes from a batch of lines with a given line decoder, before the store is involved. */
  function Ingest(decode: string -> Result<Order, string>, lines: seq<string>): (r: IngestResult)
    ensures |r.successfulOrders| + |r.errors| == |lines|
  {
    var rs := Verdicts(lines, decode);
    PartitionCount(lines, rs, 1);
    IngestResult(Accepted(rs), ErrorsFrom(lines, rs, 1))
  }

  /** With the line decoder of this system, every accepted order is well shaped. */
  lemma AcceptedWellShaped(lines: seq<string>, o: Order)
    requires o in Ingest(Decode, lines).successfulOrders
    ensures WellShaped(o)
  {
    AcceptedLines(lines, Decode, o);
    var i :| 0 <= i < |lines| && Decode(lines[i]) == Success(o);
  }

  class OrdersServiceImpl {
    /** The injected line decoder (`processString`) and the injected store. */
    const processString: string -> Result<Order, string>
    const store: OrderStore

    constructor (store: OrderStore)
      ensures this.processString == Decode && this.store == store
    {
      this.processString := Decode;
      this.store := store;
    }

    /**
      `processFile`: decodes every line, then calls the store once with the
      accepted orders when there is at least one. A storage failure
      (`ioFails`) is thrown out of the call rather than recorded as a line
      error, so the caller sees `Failure(IoError)` instead of the lists.
    */
    method ProcessFile(lines: seq<string>, ioFails: bool) returns (r: Result<IngestResult, StorageStatus>)
      requires store.Valid()
      modifies store
      ensures store.Valid()
      ensures var accepted := Ingest(processString, lines).successfulOrders;
        && store.batches == old(store.batches) + (if accepted != [] then [accepted] else [])
        && (accepted == [] || ioFails ==>
              store.fileExists == old(store.fileExists) && store.orders == old(store.orders))
        && (accepted != [] && !ioFails ==>
              store.fileExists && store.orders == Merge(old(store.Stored()), accepted))
        && r == if accepted != [] && ioFails then Failure(IoError) else Success(Ingest(processString, lines))
    {
      var successfulOrders: seq<Order> := [];
      var errors: seq<string> := [];
      var i := 0;
      while i < |lines|
        invariant 0 <= i <= |lines| && unchanged(store)
        invariant successfulOrders == Accepted(Verdicts(lines[..i], processString))
        invariant errors == ErrorsFrom(lines[..i], Verdicts(lines[..i], processString), 1)
      {
        var outcome := processString(lines[i]);
        ListsGrowByLine(lines, processString, i);
        match outcome {
          case Success(order) =>
            successfulOrders := successfulOrders + [order];
          case Failure(message) =>
            errors := errors + [ErrorMessage(i + 1, lines[i], message)];
        }
        i := i + 1;
      }
      assert lines[..i] == lines;
      if |successfulOrders| > 0 {
        var status := store.AddOrders(successfulOrders, ioFails);
        if status == IoError {
          return Failure(IoError);
        }
      }
      r := Success(IngestResult(successfulOrders, errors));
    }

    /** `getFilteredOrders`: the store's answer to the same three arguments, unchanged. */
    method GetFilteredOrders(orderId: Option<string>, startDate: Option<string>, endDate: Option<string>)
      returns (result: seq<Order>)
      ensures result == Select(store.Stored(), Criteria(orderId, startDate, endDate))
      ensures store.Valid() && Active(orderId) ==> |result| <= 1
    {
      result := store.GetFilteredOrders(orderId, startDate, endDate);
    }
  }
}
