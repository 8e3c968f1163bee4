/** The two order books side by side: the fast one refines the reference one over whole runs. */
module Lockstep {
  import opened Wrappers
  import opened OrderTypes
  import opened BookSpec
  import opened BookFacts
  import opened BookLevels
  import opened DirectBook
  import opened NaiveBook

  /** What a caller sees of one command. */
  datatype Answer = Answer(code: ResultCode, events: seq<Event>, marketData: Option<MarketData>)

  /** The answer the specification gives to a command on a book. */
  ghost predicate AnswerOf(book: Book, symbol: SymbolType, r: Request, a: Answer) {
    var o := Step(book, symbol, r);
    && a.code == o.code && a.events == o.events
    && if r.command == ORDER_BOOK_REQUEST
       then a.marketData.Some? && MarketDataOf(book, DepthOf(r.size), a.marketData.value) else a.marketData == None
  }

  /** It gives only one. */
  lemma AnswerUnique(book: Book, symbol: SymbolType, r: Request, a: Answer, b: Answer)
    requires AnswerOf(book, symbol, r, a) && AnswerOf(book, symbol, r, b)
    ensures a == b
  {
    hide Step, MarketDataOf, DepthOf;
    if r.command == ORDER_BOOK_REQUEST {
      MarketDataUnique(book, DepthOf(r.size), a.marketData.value, b.marketData.value);
    }
  }

  /** What holds before the i-th command of a run: the command is in order, and no fill-or-kill cost is the sentinel for
      "not enough". */
  ghost predicate Sensible(book: Book, symbol: SymbolType, requests: seq<Request>, i: nat)
    requires i < |requests|
  {
    RequestOk(requests[i]) && Representable(BookAfter(book, symbol, requests[..i]), requests[i])
  }

  /** The i-th answer is the specification's on the book after the commands before it. */
  ghost predicate Answered(book: Book, symbol: SymbolType, requests: seq<Request>, answers: seq<Answer>, i: nat)
    requires i < |requests| && i < |answers|
  {
    AnswerOf(BookAfter(book, symbol, requests[..i]), symbol, requests[i], answers[i])
  }

  /** Runs both books on the same commands: they give the same answers, those of the specification, and hold the same
      orders. */
  method Run(direct: OrderBookDirectImpl, naive: OrderBookNaiveImpl, requests: seq<Request>)
    returns (directAnswers: seq<Answer>, naiveAnswers: seq<Answer>)
    requires direct.Valid() && naive.Valid() && direct.Repr !! naive.Repr
    requires direct.Contents() == naive.Contents() && direct.symbolType == naive.symbolType
    requires forall i: nat | i < |requests| :: Sensible(direct.Contents(), direct.symbolType, requests, i)
    modifies direct.Repr, naive.Repr
    ensures direct.Valid() && naive.Valid()
    ensures directAnswers == naiveAnswers && |directAnswers| == |requests|
    ensures forall i: nat | i < |requests| ::
              Answered(old(direct.Contents()), direct.symbolType, requests, directAnswers, i)
    ensures direct.Contents() == naive.Contents() == BookAfter(old(direct.Contents()), direct.symbolType, requests)
  {
    hide OrderBookDirectImpl.Valid, OrderBookNaiveImpl.Valid, AnswerOf, RequestOk, Representable, Step, BookAfter;
    directAnswers, naiveAnswers := [], [];
    ghost var book, symbol := direct.Contents(), direct.symbolType;
    AfterNone(book, symbol, requests[..0]);
    for i := 0 to |requests|
      invariant direct.Valid() && naive.Valid() && direct.Repr !! naive.Repr
      invariant fresh(direct.Repr - old(direct.Repr)) && fresh(naive.Repr - old(naive.Repr))
      invariant direct.Contents() == naive.Contents() == BookAfter(book, symbol, requests[..i])
      invariant directAnswers == naiveAnswers && |directAnswers| == i
      invariant forall k: nat | k < i :: Answered(book, symbol, requests, directAnswers, k)
    {
      assert Sensible(book, symbol, requests, i);
      var directAnswer, naiveAnswer := Both(direct, naive, requests[i]);
      AfterOne(book, symbol, requests, i);
      ghost var before := directAnswers;
      directAnswers := directAnswers + [directAnswer];
      naiveAnswers := naiveAnswers + [naiveAnswer];
      forall k: nat | k < i + 1 ensures Answered(book, symbol, requests, directAnswers, k) {
        if k < i { assert Answered(book, symbol, requests, before, k); }
      }
    }
    assert requests[..|requests|] == requests;
  }

  lemma AfterNone(book: Book, symbol: SymbolType, requests: seq<Request>)
    requires requests == []
    ensures BookAfter(book, symbol, requests) == book
  {
  }

  lemma AfterOne(book: Book, symbol: SymbolType, requests: seq<Request>, i: nat)
    requires i < |requests|
    ensures BookAfter(book, symbol, requests[..i + 1])
            == Step(BookAfter(book, symbol, requests[..i]), symbol, requests[i]).book
  {
    hide Step;
    assert requests[..i + 1][..i] == requests[..i];
  }

  /** One command on both books. */
  method Both(direct: OrderBookDirectImpl, naive: OrderBookNaiveImpl, request: Request)
    returns (directAnswer: Answer, naiveAnswer: Answer)
    requires direct.Valid() && naive.Valid() && direct.Repr !! naive.Repr
    requires direct.Contents() == naive.Contents() && direct.symbolType == naive.symbolType
    requires RequestOk(request) && Representable(direct.Contents(), request)
    modifies direct.Repr, naive.Repr
    ensures direct.Valid() && naive.Valid() && direct.Repr !! naive.Repr
    ensures fresh(direct.Repr - old(direct.Repr)) && fresh(naive.Repr - old(naive.Repr))
    ensures direct.Contents() == naive.Contents() == Step(old(direct.Contents()), direct.symbolType, request).book
    ensures directAnswer == naiveAnswer && AnswerOf(old(direct.Contents()), direct.symbolType, request, directAnswer)
  {
    hide OrderBookDirectImpl.Valid, OrderBookNaiveImpl.Valid, RequestOk, Representable, Step, MarketDataOf, DepthOf;
    ghost var book := direct.Contents();
    if request.command == ORDER_BOOK_REQUEST { SameBook(book, direct.symbolType, request); }
    var directCommand := new OrderCommand(request);
    var naiveCommand := new OrderCommand(request);
    var directCode := direct.ProcessCommand(directCommand);
    var naiveCode := naive.ProcessCommand(naiveCommand);
    directAnswer := Answer(directCode, directCommand.matcherEvent, directCommand.marketData);
    naiveAnswer := Answer(naiveCode, naiveCommand.matcherEvent, naiveCommand.marketData);
    AnswerUnique(book, direct.symbolType, request, directAnswer, naiveAnswer);
  }

  lemma SameBook(book: Book, symbol: SymbolType, r: Request)
    requires r.command == ORDER_BOOK_REQUEST
    ensures Step(book, symbol, r).book == book
  {
  }
}
