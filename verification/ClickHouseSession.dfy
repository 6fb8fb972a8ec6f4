/** One ClickHouse query from the driver's answer to the packets (internal/clickhouse/handler.go). */
module ClickHouseSession {
  import opened Results
  import opened Fidelity
  import opened Reporting
  import opened EngineQuery
  import opened ClickHouse
  import opened ClickHouseReport

  datatype Reply = Exception(err: string) | Packets(packets: seq<Packet>)

  /** A covered cell of the result that its column cell does not stand for. */
  ghost predicate LosesCell(codec: Codec, res: QueryResult, i: nat, j: nat) {
    && i < |res.cols| && j < |res.rows| && i < |res.rows[j]|
    && var t, v := TypeOf(res.cols[i].typ), res.rows[j][i];
       Covered(t) && Fits(t, v) && !Represents(codec, t, CellOf(codec, t, v), v)
  }

  ghost predicate Warned(packets: seq<Packet>) {
    exists k :: 0 <= k < |packets| && packets[k].Log? && packets[k].block.rows > 0
  }

  /** An outcome with an error, even one that came with rows, is an exception. Otherwise every block is
      encodable whatever the driver gave, and a client that takes server logs is warned of every result
      that loses a covered cell. */
  method HandleQuery(e: Engine, codec: Codec, a: Answer, queryID: string, now: int, serverLogs: bool)
    returns (reply: Reply, ghost o: Outcome)
    requires e.Valid()
    modifies e
    ensures e.Valid()
    ensures if a.QueryFails? then o == Refusal(e.stub, a.err) else Buffered(a, o)
    ensures reply.Exception? <==> !o.Rows?
    ensures reply.Exception? ==> reply.err == o.err
    ensures reply.Packets? ==> AllEncodable(reply.packets)
    ensures reply.Packets? && o.res.rows != [] ==>
      && |reply.packets| >= 3 && reply.packets[1].Data?
      && reply.packets[1].block.columns == |o.res.cols| && reply.packets[1].block.rows == |o.res.rows|
      && forall i :: 0 <= i < |o.res.cols| ==>
           ColumnHolds(codec, TypeOf(o.res.cols[i].typ), o.res.rows, i, reply.packets[1].block.input[i].data)
    ensures reply.Packets? && serverLogs && (exists i, j :: LosesCell(codec, o.res, i, j)) ==> Warned(reply.packets)
  {
    hide Classify, Buffered, NotesOf, AddsUpTo, LosesCell, Convert, ColumnHolds;
    var outcome := e.RunOn(a);
    o := outcome;
    if !outcome.Rows? {
      return Exception(outcome.err), o;
    }
    var rep := ChReport(codec, outcome.res);
    var packets := SendResult(codec, outcome.res, queryID, now, rep, serverLogs);
    if i, j :| LosesCell(codec, outcome.res, i, j) {
      LossIsInReport(codec, outcome.res, i, j);
    }
    reply := Packets(packets);
  }

  lemma LossIsInReport(codec: Codec, res: QueryResult, i: nat, j: nat)
    requires LosesCell(codec, res, i, j)
    ensures NotesOf(Adds(ChRules(codec), res)) != map[] && |NotesOf(Adds(ChRules(codec), res))| > 0
  {
    hide NotesOf, AddsUpTo, Represents, Fits;
    ReportFlagsEveryLoss(codec, res, i, j);
    var reason :| Key(res.cols[i].name, reason) in NotesOf(Adds(ChRules(codec), res));
    assert NotesOf(Adds(ChRules(codec), res)).Keys != {};
  }
}
