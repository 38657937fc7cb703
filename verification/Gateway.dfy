/**
 The borrower gateway's application store, in memory and over the database.  Identifiers are handed
 in by the caller where the service draws a random one; timestamps are left out.
 */
module Gateway {
  import opened Wrappers

  /** A UUID, as the text it prints as. */
  type Id = string

  /** A value of the in-memory dictionary, or of a nullable column. */
  datatype Value = Missing | Text(text: string) | Amount(amount: real) | Ref(id: Id)

  datatype Request = Request(
    invoiceId: Id, vendorGstin: string, anchorGstin: string, amountRequested: real, key: Option<string>)
  {
    /** Python takes an empty key for no key. */
    predicate Keyed() {
      key.Some? && key.value != ""
    }
  }

  datatype Response = Response(applicationId: Id, invoiceId: Value, status: Value, workflowId: Value, existing: bool)

  datatype Status = Status(
    applicationId: Id, status: Value, currentGate: Value, amountRequested: Value, amountSanctioned: Value,
    lenderId: Value)

  datatype Error = KeyError | IntegrityError

  type App = map<string, Value>

  /** Keyword arguments beyond the named ones; a name given twice never reaches the method. */
  type Extras = extra: App |
    "self" !in extra && "application_id" !in extra && "gate" !in extra && "status" !in extra
    witness map[]

  function Lookup(app: App, field: string): Value {
    if field in app then app[field] else Missing
  }

  function WorkflowId(id: Id): Value {
    Text("loan-" + id)
  }

  /** Every application has a workflow of its own. */
  lemma WorkflowIdsDiffer(id: Id, other: Id)
    requires WorkflowId(id) == WorkflowId(other)
    ensures id == other && WorkflowId(id).Text? && WorkflowId(id).text[..5] == "loan-" && WorkflowId(id).text[5..] == id
  {
    assert ("loan-" + id)[5..] == id && ("loan-" + other)[5..] == other;
  }

  // ------------------------------------------------------------------------------------------
  // What has happened to the applications
  // ------------------------------------------------------------------------------------------

  /** A call that took effect. */
  datatype Change =
    | Created(request: Request, id: Id)
    | Updated(id: Id, gate: string, status: string, extra: Extras)

  predicate IsCreated(history: seq<Change>, id: Id) {
    history != [] &&
    var c := history[|history| - 1];
    (c.Created? && c.id == id) || IsCreated(history[..|history| - 1], id)
  }

  /** What a change writes to a field of an application, if anything. */
  type Writer = (Change, Id, string) -> Option<Value>

  /** The last thing written to a field of an application. */
  function LastValue(writes: Writer, history: seq<Change>, id: Id, field: string): Value {
    if history == [] then Missing
    else
      match writes(history[|history| - 1], id, field)
      case Some(v) => v
      case None => LastValue(writes, history[..|history| - 1], id, field)
  }

  /** A status put together from the last values written. */
  function StatusTold(writes: Writer, history: seq<Change>, id: Id, lenderField: string): Status {
    Status(id, LastValue(writes, history, id, "status"), LastValue(writes, history, id, "current_gate"),
           LastValue(writes, history, id, "amount_requested"), LastValue(writes, history, id, "amount_sanctioned"),
           LastValue(writes, history, id, lenderField))
  }

  lemma HistorySnoc(writes: Writer, history: seq<Change>, c: Change, id: Id, field: string)
    ensures IsCreated(history + [c], id) <==> (c.Created? && c.id == id) || IsCreated(history, id)
    ensures LastValue(writes, history + [c], id, field) ==
      writes(c, id, field).GetOr(LastValue(writes, history, id, field))
  {
    assert (history + [c])[..|history|] == history;
  }

  // ------------------------------------------------------------------------------------------
  // In memory
  // ------------------------------------------------------------------------------------------

  datatype Memory = Memory(applications: map<Id, App>, index: map<string, Id>)

  function NewApp(r: Request, id: Id): App {
    map["application_id" := Ref(id), "invoice_id" := Ref(r.invoiceId), "vendor_gstin" := Text(r.vendorGstin),
        "anchor_gstin" := Text(r.anchorGstin), "amount_requested" := Amount(r.amountRequested),
        "status" := Text("initiated"), "current_gate" := Text("d0_kind1"), "workflow_id" := WorkflowId(id)]
  }

  /** A new application holds what the request says, and stands at its first gate. */
  predicate HoldsRequest(app: App, r: Request, id: Id) {
    && Lookup(app, "application_id") == Ref(id) && Lookup(app, "invoice_id") == Ref(r.invoiceId)
    && Lookup(app, "vendor_gstin") == Text(r.vendorGstin) && Lookup(app, "anchor_gstin") == Text(r.anchorGstin)
    && Lookup(app, "amount_requested") == Amount(r.amountRequested)
    && Lookup(app, "status") == Text("initiated") && Lookup(app, "current_gate") == Text("d0_kind1")
    && Lookup(app, "workflow_id") == Text("loan-" + id)
    && Lookup(app, "amount_sanctioned") == Missing && Lookup(app, "lender_id") == Missing
  }

  lemma NewAppHoldsRequest(r: Request, id: Id)
    ensures HoldsRequest(NewApp(r, id), r, id)
  {
    assert |"status"| == 6 && |"lender_id"| == 9 && |"invoice_id"| == 10 && |"workflow_id"| == 11;
    assert |"vendor_gstin"| == |"anchor_gstin"| == |"current_gate"| == 12;
    assert |"application_id"| == 14 && |"amount_requested"| == 16 && |"amount_sanctioned"| == 17;
    assert "vendor_gstin"[0] == 'v' && "anchor_gstin"[0] == 'a' && "current_gate"[0] == 'c';
  }

  ghost predicate MemoryValid(m: Memory) {
    forall k :: k in m.index ==> k != "" && m.index[k] in m.applications
  }

  /** An update overwrites gate and status, and then whatever the extras name. */
  function InDictionary(c: Change, id: Id, field: string): Option<Value> {
    match c
    case Created(r, i) => if i == id && field in NewApp(r, i) then Some(NewApp(r, i)[field]) else None
    case Updated(i, gate, status, extra) =>
      if i != id then None
      else if field in extra then Some(extra[field])
      else if field == "status" then Some(Text(status))
      else if field == "current_gate" then Some(Text(gate))
      else None
  }

  /** The dictionaries hold what was last written to them. */
  ghost predicate MemoryTells(applications: map<Id, App>, history: seq<Change>) {
    && (forall id :: id in applications <==> IsCreated(history, id))
    && (forall id, field :: LastValue(InDictionary, history, id, field) ==
          if id in applications then Lookup(applications[id], field) else Missing)
  }

  lemma CreatedTells(applications: map<Id, App>, history: seq<Change>, r: Request, id: Id)
    requires MemoryTells(applications, history) && id !in applications
    ensures MemoryTells(applications[id := NewApp(r, id)], history + [Created(r, id)])
  {
    forall i, field
      ensures LastValue(InDictionary, history + [Created(r, id)], i, field) ==
        if i == id then Lookup(NewApp(r, id), field)
        else if i in applications then Lookup(applications[i], field) else Missing
    {
      HistorySnoc(InDictionary, history, Created(r, id), i, field);
    }
    forall i ensures IsCreated(history + [Created(r, id)], i) <==> i == id || IsCreated(history, i) {
      HistorySnoc(InDictionary, history, Created(r, id), i, "");
    }
  }

  function UpdatedApp(app: App, gate: string, status: string, extra: Extras): App {
    app["current_gate" := Text(gate)]["status" := Text(status)] + extra
  }

  lemma UpdatedTells(
      applications: map<Id, App>, history: seq<Change>, id: Id, gate: string, status: string, extra: Extras)
    requires MemoryTells(applications, history) && id in applications
    ensures MemoryTells(applications[id := UpdatedApp(applications[id], gate, status, extra)],
                        history + [Updated(id, gate, status, extra)])
  {
    var c := Updated(id, gate, status, extra);
    forall i, field
      ensures LastValue(InDictionary, history + [c], i, field) ==
        if i == id then Lookup(UpdatedApp(applications[id], gate, status, extra), field)
        else if i in applications then Lookup(applications[i], field) else Missing
    {
      HistorySnoc(InDictionary, history, c, i, field);
      assert "status" != "current_gate";
    }
    forall i ensures IsCreated(history + [c], i) <==> IsCreated(history, i) {
      HistorySnoc(InDictionary, history, c, i, "");
    }
  }

  class BorrowerGatewayService {
    var applications: map<Id, App>
    var idempotencyIndex: map<string, Id>
    ghost var history: seq<Change>

    ghost function Snapshot(): Memory
      reads this
    {
      Memory(applications, idempotencyIndex)
    }

    ghost predicate Valid()
      reads this
    {
      MemoryValid(Snapshot()) && MemoryTells(applications, history)
    }

    constructor ()
      ensures Valid() && Snapshot() == Memory(map[], map[]) && history == []
    {
      applications, idempotencyIndex, history := map[], map[], [];
    }

    method InitiateApplication(r: Request, id: Id) returns (response: Response)
      requires Valid() && id !in applications
      modifies this
      ensures Valid()
      ensures (Snapshot(), response) == MemoryInitiate(old(Snapshot()), r, id)
      ensures history == old(history) + if response.existing then [] else [Created(r, id)]
      ensures !response.existing ==>
        && id in applications && HoldsRequest(applications[id], r, id)
        && response == Response(id, Ref(r.invoiceId), Text("initiated"), Text("loan-" + id), false)
    {
      if r.Keyed() && r.key.value in idempotencyIndex {
        var existingId := idempotencyIndex[r.key.value];
        var app := applications[existingId];
        return Response(existingId, Lookup(app, "invoice_id"), Lookup(app, "status"), Lookup(app, "workflow_id"), true);
      }
      NewAppHoldsRequest(r, id);
      CreatedTells(applications, history, r, id);
      applications := applications[id := NewApp(r, id)];
      history := history + [Created(r, id)];
      if r.Keyed() {
        idempotencyIndex := idempotencyIndex[r.key.value := id];
      }
      response := Response(id, Ref(r.invoiceId), Text("initiated"), WorkflowId(id), false);
    }

    method GetStatus(id: Id) returns (result: Result<Status, Error>)
      requires Valid()
      ensures result == MemoryStatus(Snapshot(), id)
      ensures result ==
        if IsCreated(history, id) then Success(StatusTold(InDictionary, history, id, "lender_id"))
        else Failure(KeyError)
    {
      if id !in applications {
        return Failure(KeyError);
      }
      var app := applications[id];
      result := Success(Status(id, Lookup(app, "status"), Lookup(app, "current_gate"), Lookup(app, "amount_requested"),
                               Lookup(app, "amount_sanctioned"), Lookup(app, "lender_id")));
    }

    method UpdateGate(id: Id, gate: string, status: string, extra: Extras) returns (result: Result<(), Error>)
      requires Valid()
      modifies this`applications, this`history
      ensures Valid()
      ensures (Snapshot(), result) == MemoryUpdate(old(Snapshot()), id, gate, status, extra)
      ensures history == old(history) + if result.Success? then [Updated(id, gate, status, extra)] else []
    {
      if id !in applications {
        return Failure(KeyError);
      }
      UpdatedTells(applications, history, id, gate, status, extra);
      history := history + [Updated(id, gate, status, extra)];
      var app := applications[id];
      app := app["current_gate" := Text(gate)];
      app := app["status" := Text(status)];
      app := app + extra;
      applications := applications[id := app];
      result := Success(());
    }
  }

  function MemoryInitiate(m: Memory, r: Request, id: Id): (Memory, Response)
    requires MemoryValid(m)
  {
    if r.Keyed() && r.key.value in m.index then
      var app := m.applications[m.index[r.key.value]];
      (m, Response(m.index[r.key.value], Lookup(app, "invoice_id"), Lookup(app, "status"), Lookup(app, "workflow_id"),
                   true))
    else
      (Memory(m.applications[id := NewApp(r, id)], if r.Keyed() then m.index[r.key.value := id] else m.index),
       Response(id, Ref(r.invoiceId), Text("initiated"), WorkflowId(id), false))
  }

  function MemoryStatus(m: Memory, id: Id): Result<Status, Error> {
    if id !in m.applications then Failure(KeyError)
    else
      var app := m.applications[id];
      Success(Status(id, Lookup(app, "status"), Lookup(app, "current_gate"), Lookup(app, "amount_requested"),
                     Lookup(app, "amount_sanctioned"), Lookup(app, "lender_id")))
  }

  function MemoryUpdate(m: Memory, id: Id, gate: string, status: string, extra: Extras): (Memory, Result<(), Error>) {
    if id !in m.applications then (m, Failure(KeyError))
    else
      (m.(applications := m.applications[id := UpdatedApp(m.applications[id], gate, status, extra)]), Success(()))
  }

  // ------------------------------------------------------------------------------------------
  // Over the database
  // ------------------------------------------------------------------------------------------

  datatype Record = Record(
    invoiceId: Id, vendorGstin: string, anchorGstin: string, amountRequested: real, status: string,
    currentGate: string, workflowId: Value, key: Option<string>, selectedLenderId: Value, offerData: Value,
    amountSanctioned: Value)

  type Rows = map<Id, Record>

  function NewRecord(r: Request, id: Id): Record {
    Record(r.invoiceId, r.vendorGstin, r.anchorGstin, r.amountRequested, "initiated", "d0_kind1", WorkflowId(id),
           r.key, Missing, Missing, Missing)
  }

  predicate KeyUsed(rows: Rows, key: string) {
    exists id :: id in rows && rows[id].key == Some(key)
  }

  /** The constraint `idempotency_key` is declared with.  Missing keys never clash. */
  ghost predicate UniqueKeys(rows: Rows) {
    forall i, j :: i in rows && j in rows && rows[i].key.Some? && rows[i].key == rows[j].key ==> i == j
  }

  /** The row a select by key finds. */
  function RowOf(rows: Rows, key: string): (id: Id)
    requires UniqueKeys(rows) && KeyUsed(rows, key)
    ensures id in rows && rows[id].key == Some(key)
  {
    var id :| id in rows && rows[id].key == Some(key);
    id
  }

  function Found(rows: Rows, id: Id): Response
    requires id in rows
  {
    Response(id, Ref(rows[id].invoiceId), Text(rows[id].status), rows[id].workflowId, true)
  }

  function Inserted(r: Request, id: Id): Response {
    Response(id, Ref(r.invoiceId), Text("initiated"), WorkflowId(id), false)
  }

  function DbInitiate(rows: Rows, r: Request, id: Id): (Rows, Result<Response, Error>)
    requires UniqueKeys(rows)
  {
    if r.Keyed() && KeyUsed(rows, r.key.value) then (rows, Success(Found(rows, RowOf(rows, r.key.value))))
    else if r.key.Some? && KeyUsed(rows, r.key.value) then (rows, Failure(IntegrityError))
    else (rows[id := NewRecord(r, id)], Success(Inserted(r, id)))
  }

  function DbStatus(rows: Rows, id: Id): Result<Status, Error> {
    if id !in rows then Failure(KeyError)
    else
      var r := rows[id];
      Success(Status(id, Text(r.status), Text(r.currentGate), Amount(r.amountRequested), r.amountSanctioned,
                     r.selectedLenderId))
  }

  function UpdatedRecord(row: Record, gate: string, status: string, extra: Extras): Record {
    row.(currentGate := gate, status := status,
         amountSanctioned := if "amount_sanctioned" in extra then extra["amount_sanctioned"] else row.amountSanctioned,
         selectedLenderId :=
           if "selected_lender_id" in extra then extra["selected_lender_id"] else row.selectedLenderId,
         offerData := if "offer_data" in extra then extra["offer_data"] else row.offerData)
  }

  function DbUpdate(rows: Rows, id: Id, gate: string, status: string, extra: Extras): (Rows, Result<(), Error>) {
    if id !in rows then (rows, Failure(KeyError))
    else (rows[id := UpdatedRecord(rows[id], gate, status, extra)], Success(()))
  }

  /** The columns a status shows. */
  function Column(row: Record, field: string): Value {
    if field == "status" then Text(row.status)
    else if field == "current_gate" then Text(row.currentGate)
    else if field == "amount_requested" then Amount(row.amountRequested)
    else if field == "amount_sanctioned" then row.amountSanctioned
    else if field == "selected_lender_id" then row.selectedLenderId
    else Missing
  }

  /** An update overwrites gate and status, and of the extras only the columns it knows. */
  function InRow(c: Change, id: Id, field: string): Option<Value> {
    match c
    case Created(r, i) => if i == id then Some(Column(NewRecord(r, i), field)) else None
    case Updated(i, gate, status, extra) =>
      if i != id then None
      else if field == "status" then Some(Text(status))
      else if field == "current_gate" then Some(Text(gate))
      else if (field == "amount_sanctioned" || field == "selected_lender_id") && field in extra then Some(extra[field])
      else None
  }

  /** The rows hold what was last written to them. */
  ghost predicate RowsTell(rows: Rows, history: seq<Change>) {
    && (forall id :: id in rows <==> IsCreated(history, id))
    && (forall id, field :: LastValue(InRow, history, id, field) ==
          if id in rows then Column(rows[id], field) else Missing)
  }

  lemma InsertedTells(rows: Rows, history: seq<Change>, r: Request, id: Id)
    requires RowsTell(rows, history) && id !in rows
    ensures RowsTell(rows[id := NewRecord(r, id)], history + [Created(r, id)])
  {
    forall i, field
      ensures LastValue(InRow, history + [Created(r, id)], i, field) ==
        if i == id then Column(NewRecord(r, id), field) else if i in rows then Column(rows[i], field) else Missing
    {
      HistorySnoc(InRow, history, Created(r, id), i, field);
    }
    forall i ensures IsCreated(history + [Created(r, id)], i) <==> i == id || IsCreated(history, i) {
      HistorySnoc(InRow, history, Created(r, id), i, "");
    }
  }

  lemma RewrittenTells(
      rows: Rows, history: seq<Change>, id: Id, gate: string, status: string, extra: Extras)
    requires RowsTell(rows, history) && id in rows
    ensures RowsTell(rows[id := UpdatedRecord(rows[id], gate, status, extra)],
                     history + [Updated(id, gate, status, extra)])
  {
    var c := Updated(id, gate, status, extra);
    forall i, field
      ensures LastValue(InRow, history + [c], i, field) ==
        if i == id then Column(UpdatedRecord(rows[id], gate, status, extra), field)
        else if i in rows then Column(rows[i], field) else Missing
    {
      HistorySnoc(InRow, history, c, i, field);
    }
    forall i ensures IsCreated(history + [c], i) <==> IsCreated(history, i) {
      HistorySnoc(InRow, history, c, i, "");
    }
  }

  class AsyncDbGatewayService {
    var rows: Rows
    ghost var history: seq<Change>

    ghost predicate Valid()
      reads this
    {
      UniqueKeys(rows) && RowsTell(rows, history)
    }

    constructor ()
      ensures Valid() && rows == map[] && history == []
    {
      rows, history := map[], [];
    }

    /** Select and commit with nothing in between; see the module on concurrent sessions for the rest. */
    method InitiateApplication(r: Request, id: Id) returns (result: Result<Response, Error>)
      requires Valid() && id !in rows
      modifies this
      ensures Valid() && (rows, result) == DbInitiate(old(rows), r, id)
      ensures history ==
        old(history) + if result.Failure? || result.value.existing then [] else [Created(r, id)]
      ensures result.Success? && !result.value.existing ==>
        && rows == old(rows)[id := Record(
             r.invoiceId, r.vendorGstin, r.anchorGstin, r.amountRequested, "initiated", "d0_kind1",
             Text("loan-" + id), r.key, Missing, Missing, Missing)]
        && result.value == Response(id, Ref(r.invoiceId), Text("initiated"), Text("loan-" + id), false)
    {
      if r.Keyed() {
        if KeyUsed(rows, r.key.value) {
          var existing := RowOf(rows, r.key.value);
          return Success(Found(rows, existing));
        }
      }
      if r.key.Some? && KeyUsed(rows, r.key.value) {
        return Failure(IntegrityError);
      }
      InsertedTells(rows, history, r, id);
      rows := rows[id := NewRecord(r, id)];
      history := history + [Created(r, id)];
      result := Success(Inserted(r, id));
    }

    method GetStatus(id: Id) returns (result: Result<Status, Error>)
      requires Valid()
      ensures result == DbStatus(rows, id)
      ensures result ==
        if IsCreated(history, id) then Success(StatusTold(InRow, history, id, "selected_lender_id"))
        else Failure(KeyError)
    {
      if id !in rows {
        return Failure(KeyError);
      }
      var record := rows[id];
      result := Success(Status(id, Text(record.status), Text(record.currentGate), Amount(record.amountRequested),
                               record.amountSanctioned, record.selectedLenderId));
    }

    method UpdateGate(id: Id, gate: string, status: string, extra: Extras) returns (result: Result<(), Error>)
      requires Valid()
      modifies this
      ensures Valid() && (rows, result) == DbUpdate(old(rows), id, gate, status, extra)
      ensures history == old(history) + if result.Success? then [Updated(id, gate, status, extra)] else []
    {
      if id !in rows {
        return Failure(KeyError);
      }
      RewrittenTells(rows, history, id, gate, status, extra);
      history := history + [Updated(id, gate, status, extra)];
      var record := rows[id];
      record := record.(currentGate := gate);
      record := record.(status := status);
      if "amount_sanctioned" in extra {
        record := record.(amountSanctioned := extra["amount_sanctioned"]);
      }
      if "selected_lender_id" in extra {
        record := record.(selectedLenderId := extra["selected_lender_id"]);
      }
      if "offer_data" in extra {
        record := record.(offerData := extra["offer_data"]);
      }
      rows := rows[id := record];
      result := Success(());
    }
  }
}
