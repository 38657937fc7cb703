/** When the two backends of the gateway answer alike. */
module GatewayLaws {
  import opened Wrappers
  import opened Gateway

  datatype Call =
    | Initiate(request: Request, freshId: Id)
    | GetStatus(id: Id)
    | UpdateGate(id: Id, gate: string, status: string, extra: Extras)

  datatype Answer =
    | Initiated(response: Result<Response, Error>)
    | StatusIs(current: Result<Status, Error>)
    | UpdateDone(done: Result<(), Error>)

  function MemoryCall(m: Memory, call: Call): (Memory, Answer)
    requires MemoryValid(m)
  {
    match call
    case Initiate(r, id) =>
      var (m', response) := MemoryInitiate(m, r, id);
      (m', Initiated(Success(response)))
    case GetStatus(id) => (m, StatusIs(MemoryStatus(m, id)))
    case UpdateGate(id, gate, status, extra) =>
      var (m', done) := MemoryUpdate(m, id, gate, status, extra);
      (m', UpdateDone(done))
  }

  function DbCall(rows: Rows, call: Call): (Rows, Answer)
    requires UniqueKeys(rows)
  {
    match call
    case Initiate(r, id) =>
      var (rows', response) := DbInitiate(rows, r, id);
      (rows', Initiated(response))
    case GetStatus(id) => (rows, StatusIs(DbStatus(rows, id)))
    case UpdateGate(id, gate, status, extra) =>
      var (rows', done) := DbUpdate(rows, id, gate, status, extra);
      (rows', UpdateDone(done))
  }

  /** The identifier drawn for a new application is one neither store has used. */
  predicate Fresh(ids: set<Id>, call: Call) {
    call.Initiate? ==> call.freshId !in ids
  }

  lemma CallsKeepValid(m: Memory, rows: Rows, call: Call)
    requires MemoryValid(m) && UniqueKeys(rows)
    requires Fresh(rows.Keys, call)
    ensures MemoryValid(MemoryCall(m, call).0) && UniqueKeys(DbCall(rows, call).0)
  {
  }

  /** A dictionary and a row that every answer reads alike. */
  ghost predicate SameRow(app: App, row: Record) {
    && Lookup(app, "invoice_id") == Ref(row.invoiceId)
    && Lookup(app, "status") == Text(row.status)
    && Lookup(app, "current_gate") == Text(row.currentGate)
    && Lookup(app, "amount_requested") == Amount(row.amountRequested)
    && Lookup(app, "workflow_id") == row.workflowId
    && Lookup(app, "amount_sanctioned") == row.amountSanctioned
    && Lookup(app, "lender_id") == row.selectedLenderId
  }

  ghost predicate SameRows(applications: map<Id, App>, rows: Rows) {
    applications.Keys == rows.Keys && forall id :: id in rows ==> SameRow(applications[id], rows[id])
  }

  ghost predicate SameKeys(index: map<string, Id>, rows: Rows) {
    && (forall k :: k in index ==> k != "" && index[k] in rows && rows[index[k]].key == Some(k))
    && (forall id :: id in rows && rows[id].key.Some? && rows[id].key.value != "" ==> rows[id].key.value in index)
  }

  ghost predicate Alike(m: Memory, rows: Rows) {
    MemoryValid(m) && UniqueKeys(rows) && SameRows(m.applications, rows) && SameKeys(m.index, rows)
  }

  /** Keys are missing or nonempty, and updates carry no extra but the sanctioned amount. */
  predicate Plain(call: Call) {
    match call
    case Initiate(r, _) => r.key != Some("")
    case GetStatus(_) => true
    case UpdateGate(_, _, _, extra) => extra.Keys <= {"amount_sanctioned"}
  }

  lemma NewRowsAreAlike(r: Request, id: Id)
    ensures SameRow(NewApp(r, id), NewRecord(r, id))
  {
    FieldNamesDiffer();
  }

  lemma FieldNamesDiffer()
    ensures |"status"| == 6 && |"lender_id"| == 9 && |"invoice_id"| == 10 && |"workflow_id"| == 11
    ensures |"vendor_gstin"| == |"anchor_gstin"| == |"current_gate"| == 12
    ensures |"application_id"| == 14 && |"amount_requested"| == 16 && |"amount_sanctioned"| == 17
    ensures |"selected_lender_id"| == 18 && |"offer_data"| == 10 && "offer_data"[0] == 'o'
    ensures "invoice_id"[0] == 'i' && "vendor_gstin"[0] == 'v' && "anchor_gstin"[0] == 'a' && "current_gate"[0] == 'c'
  {
  }

  lemma KeyedLookupsAgree(m: Memory, rows: Rows, key: string)
    requires Alike(m, rows) && key != ""
    ensures key in m.index <==> KeyUsed(rows, key)
    ensures key in m.index ==> m.index[key] == RowOf(rows, key)
  {
  }

  lemma PutRow(applications: map<Id, App>, rows: Rows, id: Id, app: App, row: Record)
    requires SameRows(applications, rows) && SameRow(app, row)
    ensures SameRows(applications[id := app], rows[id := row])
  {
    assert forall i :: i in rows ==> SameRow(applications[i], rows[i]);
  }

  lemma NewKey(index: map<string, Id>, rows: Rows, r: Request, id: Id)
    requires SameKeys(index, rows) && UniqueKeys(rows) && id !in rows
    requires r.key.Some? ==> !KeyUsed(rows, r.key.value)
    ensures SameKeys(if r.Keyed() then index[r.key.value := id] else index, rows[id := NewRecord(r, id)])
    ensures UniqueKeys(rows[id := NewRecord(r, id)])
  {
  }

  lemma NewStoresAlike(m: Memory, rows: Rows, r: Request, id: Id)
    requires Alike(m, rows) && id !in rows
    requires r.key.Some? ==> !KeyUsed(rows, r.key.value)
    ensures Alike(
      Memory(m.applications[id := NewApp(r, id)], if r.Keyed() then m.index[r.key.value := id] else m.index),
      rows[id := NewRecord(r, id)])
  {
    NewRowsAreAlike(r, id);
    PutRow(m.applications, rows, id, NewApp(r, id), NewRecord(r, id));
    NewKey(m.index, rows, r, id);
  }

  lemma InitiateAlike(m: Memory, rows: Rows, r: Request, id: Id)
    requires Alike(m, rows) && id !in rows
    requires r.key == Some("") ==> !KeyUsed(rows, "")
    ensures Initiated(Success(MemoryInitiate(m, r, id).1)) == Initiated(DbInitiate(rows, r, id).1)
    ensures Alike(MemoryInitiate(m, r, id).0, DbInitiate(rows, r, id).0)
  {
    if r.Keyed() {
      KeyedLookupsAgree(m, rows, r.key.value);
    }
    if r.Keyed() && KeyUsed(rows, r.key.value) {
      var found := m.index[r.key.value];
      assert SameRow(m.applications[found], rows[found]);
    } else {
      NewStoresAlike(m, rows, r, id);
    }
  }

  lemma UpdatedRowsAlike(app: App, row: Record, gate: string, status: string, extra: Extras)
    requires SameRow(app, row) && extra.Keys <= {"amount_sanctioned"}
    ensures var row' := row.(currentGate := gate, status := status);
      SameRow(UpdatedApp(app, gate, status, extra),
              if "amount_sanctioned" in extra then row'.(amountSanctioned := extra["amount_sanctioned"]) else row')
    ensures "selected_lender_id" !in extra && "offer_data" !in extra
  {
    FieldNamesDiffer();
  }

  lemma SameKeysAfter(index: map<string, Id>, rows: Rows, id: Id, row: Record)
    requires SameKeys(index, rows) && UniqueKeys(rows) && id in rows && row.key == rows[id].key
    ensures SameKeys(index, rows[id := row]) && UniqueKeys(rows[id := row])
  {
  }

  lemma ReplacedRowsAlike(m: Memory, rows: Rows, id: Id, app: App, row: Record)
    requires Alike(m, rows) && id in rows && SameRow(app, row) && row.key == rows[id].key
    ensures Alike(m.(applications := m.applications[id := app]), rows[id := row])
  {
    PutRow(m.applications, rows, id, app, row);
    SameKeysAfter(m.index, rows, id, row);
  }

  lemma UpdateAlike(m: Memory, rows: Rows, id: Id, gate: string, status: string, extra: Extras)
    requires Alike(m, rows) && extra.Keys <= {"amount_sanctioned"}
    ensures MemoryUpdate(m, id, gate, status, extra).1 == DbUpdate(rows, id, gate, status, extra).1
    ensures Alike(MemoryUpdate(m, id, gate, status, extra).0, DbUpdate(rows, id, gate, status, extra).0)
  {
    if id in rows {
      UpdatedRowsAlike(m.applications[id], rows[id], gate, status, extra);
      var app := UpdatedApp(m.applications[id], gate, status, extra);
      var row := DbUpdate(rows, id, gate, status, extra).0[id];
      ReplacedRowsAlike(m, rows, id, app, row);
    }
  }

  lemma CallAlike(m: Memory, rows: Rows, call: Call)
    requires Alike(m, rows) && Fresh(rows.Keys, call) && Plain(call)
    ensures MemoryCall(m, call).1 == DbCall(rows, call).1
    ensures Alike(MemoryCall(m, call).0, DbCall(rows, call).0)
  {
    match call
    case Initiate(r, id) => InitiateAlike(m, rows, r, id);
    case GetStatus(id) =>
    case UpdateGate(id, gate, status, extra) => UpdateAlike(m, rows, id, gate, status, extra);
  }

  ghost predicate FreshRun(rows: Rows, calls: seq<Call>)
    requires UniqueKeys(rows)
    decreases |calls|
  {
    calls == [] ||
    (Fresh(rows.Keys, calls[0]) &&
     (CallsKeepValid(Memory(map[], map[]), rows, calls[0]); FreshRun(DbCall(rows, calls[0]).0, calls[1..])))
  }

  ghost function DbAnswers(rows: Rows, calls: seq<Call>): seq<Answer>
    requires UniqueKeys(rows) && FreshRun(rows, calls)
    decreases |calls|
  {
    if calls == [] then []
    else
      CallsKeepValid(Memory(map[], map[]), rows, calls[0]);
      [DbCall(rows, calls[0]).1] + DbAnswers(DbCall(rows, calls[0]).0, calls[1..])
  }

  function MemoryAnswers(m: Memory, calls: seq<Call>): seq<Answer>
    requires MemoryValid(m)
    decreases |calls|
  {
    if calls == [] then [] else [MemoryCall(m, calls[0]).1] + MemoryAnswers(MemoryCall(m, calls[0]).0, calls[1..])
  }

  /** Over every run of plain calls the two backends give the same answers. */
  lemma {:induction false} BackendsAgree(m: Memory, rows: Rows, calls: seq<Call>)
    requires Alike(m, rows) && FreshRun(rows, calls) && forall i :: 0 <= i < |calls| ==> Plain(calls[i])
    ensures MemoryAnswers(m, calls) == DbAnswers(rows, calls)
    decreases |calls|
  {
    if calls != [] {
      CallAlike(m, rows, calls[0]);
      BackendsAgree(MemoryCall(m, calls[0]).0, DbCall(rows, calls[0]).0, calls[1..]);
    }
  }

  /** In particular from the stores the two services start with. */
  lemma NewServicesAgree(calls: seq<Call>)
    requires FreshRun(map[], calls) && forall i :: 0 <= i < |calls| ==> Plain(calls[i])
    ensures MemoryAnswers(Memory(map[], map[]), calls) == DbAnswers(map[], calls)
  {
    BackendsAgree(Memory(map[], map[]), map[], calls);
  }

  // ------------------------------------------------------------------------------------------
  // Idempotence
  // ------------------------------------------------------------------------------------------

  function MemoryAfter(m: Memory, calls: seq<Call>): Memory
    requires MemoryValid(m)
    decreases |calls|
  {
    if calls == [] then m else MemoryAfter(MemoryCall(m, calls[0]).0, calls[1..])
  }

  ghost function DbAfter(rows: Rows, calls: seq<Call>): Rows
    requires UniqueKeys(rows) && FreshRun(rows, calls)
    decreases |calls|
  {
    if calls == [] then rows
    else
      CallsKeepValid(Memory(map[], map[]), rows, calls[0]);
      DbAfter(DbCall(rows, calls[0]).0, calls[1..])
  }

  lemma {:induction false} MemoryKeyStays(m: Memory, calls: seq<Call>, key: string)
    requires MemoryValid(m) && key in m.index
    ensures var after := MemoryAfter(m, calls);
      MemoryValid(after) && key in after.index && after.index[key] == m.index[key]
    decreases |calls|
  {
    if calls != [] {
      MemoryKeyStays(MemoryCall(m, calls[0]).0, calls[1..], key);
    }
  }

  lemma {:induction false} DbKeyStays(rows: Rows, calls: seq<Call>, id: Id)
    requires UniqueKeys(rows) && FreshRun(rows, calls) && id in rows
    ensures var after := DbAfter(rows, calls);
      UniqueKeys(after) && id in after && after[id].key == rows[id].key && after[id].invoiceId == rows[id].invoiceId
    decreases |calls|
  {
    if calls != [] {
      CallsKeepValid(Memory(map[], map[]), rows, calls[0]);
      DbKeyStays(DbCall(rows, calls[0]).0, calls[1..], id);
    }
  }

  /**
   In memory: whatever happens in between, a request that repeats a nonempty key gets the application
   of the first request with that key, and nothing is added.
   */
  lemma RepeatReturnsFirstInMemory(m: Memory, r: Request, id: Id, between: seq<Call>, r': Request, id': Id)
    requires MemoryValid(m) && r.Keyed() && r'.key == r.key
    ensures var (first, response) := MemoryInitiate(m, r, id);
      && MemoryValid(first) && MemoryValid(MemoryAfter(first, between))
      && var (second, repeated) := MemoryInitiate(MemoryAfter(first, between), r', id');
         && second == MemoryAfter(first, between)
         && repeated.existing && repeated.applicationId == response.applicationId
  {
    MemoryKeyStays(MemoryInitiate(m, r, id).0, between, r.key.value);
  }

  /** Over the database the same holds, and the repeated request is told the first one's invoice. */
  lemma RepeatReturnsFirstInDb(rows: Rows, r: Request, id: Id, between: seq<Call>, r': Request, id': Id)
    requires UniqueKeys(rows) && id !in rows && r.Keyed() && r'.key == r.key
    requires UniqueKeys(DbInitiate(rows, r, id).0) && FreshRun(DbInitiate(rows, r, id).0, between)
    ensures var (first, response) := DbInitiate(rows, r, id);
      && response.Success? && UniqueKeys(DbAfter(first, between))
      && var (second, repeated) := DbInitiate(DbAfter(first, between), r', id');
         && second == DbAfter(first, between) && repeated.Success? && repeated.value.existing
         && repeated.value.applicationId == response.value.applicationId
         && repeated.value.invoiceId == response.value.invoiceId
  {
    var (first, response) := DbInitiate(rows, r, id);
    DbKeyStays(first, between, response.value.applicationId);
  }

  /** An empty key splits the backends exactly when the database has seen one before. */
  lemma EmptyKeyAgreesExactly(m: Memory, rows: Rows, r: Request, id: Id)
    requires Alike(m, rows) && id !in rows
    ensures Initiated(Success(MemoryInitiate(m, r, id).1)) == Initiated(DbInitiate(rows, r, id).1) <==>
            !(r.key == Some("") && KeyUsed(rows, ""))
  {
    if !(r.key == Some("") && KeyUsed(rows, "")) {
      InitiateAlike(m, rows, r, id);
    }
  }

  /** The second application with an empty key is stored in memory and refused by the database. */
  lemma SecondEmptyKeySplits(r: Request, id: Id, r': Request, id': Id)
    returns (m: Memory, rows: Rows)
    requires r.key == Some("") && r'.key == Some("") && id != id'
    ensures m == MemoryInitiate(Memory(map[], map[]), r, id).0 && rows == DbInitiate(map[], r, id).0
    ensures Alike(m, rows) && id' !in rows
    ensures !MemoryInitiate(m, r', id').1.existing && DbInitiate(rows, r', id').1 == Failure(IntegrityError)
  {
    m, rows := MemoryInitiate(Memory(map[], map[]), r, id).0, DbInitiate(map[], r, id).0;
    InitiateAlike(Memory(map[], map[]), map[], r, id);
    assert rows[id].key == Some("");
  }

  /** The extras mean the same to a status read from the dictionary and from the row. */
  ghost predicate HarmlessToStatus(row: Record, gate: string, extra: Extras) {
    && ("current_gate" in extra ==> extra["current_gate"] == Text(gate))
    && ("amount_requested" in extra ==> extra["amount_requested"] == Amount(row.amountRequested))
    && (var before := row.selectedLenderId;
        var lender := if "selected_lender_id" in extra then extra["selected_lender_id"] else before;
        (if "lender_id" in extra then extra["lender_id"] else before) == lender)
  }

  /** The extras leave what a repeated request is told. */
  ghost predicate HarmlessToRepeats(row: Record, extra: Extras) {
    && ("invoice_id" in extra ==> extra["invoice_id"] == Ref(row.invoiceId))
    && ("workflow_id" in extra ==> extra["workflow_id"] == row.workflowId)
  }

  lemma UpdatedField(app: App, gate: string, status: string, extra: Extras, field: string)
    ensures Lookup(UpdatedApp(app, gate, status, extra), field) ==
      if field in extra then extra[field]
      else if field == "status" then Text(status)
      else if field == "current_gate" then Text(gate)
      else Lookup(app, field)
  {
  }

  lemma OtherFields()
    ensures "invoice_id" != "status" && "invoice_id" != "current_gate"
    ensures "amount_requested" != "status" && "amount_requested" != "current_gate"
    ensures "workflow_id" != "status" && "workflow_id" != "current_gate"
    ensures "amount_sanctioned" != "status" && "amount_sanctioned" != "current_gate"
    ensures "lender_id" != "status" && "lender_id" != "current_gate" && "current_gate" != "status"
  {
    FieldNamesDiffer();
  }

  /** Repeated requests with the application's key are told the same by both stores. */
  ghost predicate RepeatsAlike(m: Memory, rows: Rows, id: Id)
    requires MemoryValid(m) && UniqueKeys(rows)
  {
    forall r: Request, id': Id :: r.Keyed() && id in rows && r.key == rows[id].key ==>
      Success(MemoryInitiate(m, r, id').1) == DbInitiate(rows, r, id').1
  }

  lemma StatusAfterUpdate(app: App, row: Record, gate: string, status: string, extra: Extras)
    requires SameRow(app, row)
    ensures var app', row' := UpdatedApp(app, gate, status, extra), UpdatedRecord(row, gate, status, extra);
      && Lookup(app', "status") == Text(row'.status)
      && ((&& Lookup(app', "current_gate") == Text(row'.currentGate)
           && Lookup(app', "amount_requested") == Amount(row'.amountRequested)
           && Lookup(app', "amount_sanctioned") == row'.amountSanctioned
           && Lookup(app', "lender_id") == row'.selectedLenderId) <==> HarmlessToStatus(row, gate, extra))
      && ((Lookup(app', "invoice_id") == Ref(row'.invoiceId) && Lookup(app', "workflow_id") == row'.workflowId)
          <==> HarmlessToRepeats(row, extra))
  {
    OtherFields();
    UpdatedField(app, gate, status, extra, "invoice_id");
    UpdatedField(app, gate, status, extra, "status");
    UpdatedField(app, gate, status, extra, "current_gate");
    UpdatedField(app, gate, status, extra, "amount_requested");
    UpdatedField(app, gate, status, extra, "workflow_id");
    UpdatedField(app, gate, status, extra, "amount_sanctioned");
    UpdatedField(app, gate, status, extra, "lender_id");
  }

  /** What repeats of a key are told depends on the application the key leads to. */
  lemma RepeatsTold(m: Memory, rows: Rows, id: Id)
    requires MemoryValid(m) && UniqueKeys(rows) && SameKeys(m.index, rows) && id in rows && id in m.applications
    requires rows[id].key.Some? && rows[id].key.value != ""
    ensures RepeatsAlike(m, rows, id)
            <==> (&& Lookup(m.applications[id], "invoice_id") == Ref(rows[id].invoiceId)
                  && Lookup(m.applications[id], "status") == Text(rows[id].status)
                  && Lookup(m.applications[id], "workflow_id") == rows[id].workflowId)
  {
    var key := rows[id].key.value;
    assert KeyUsed(rows, key) && RowOf(rows, key) == id && m.index[key] == id;
    var sample := Request("", "", "", 0.0, Some(key));
    assert sample.Keyed() && sample.key == rows[id].key;
    assert MemoryInitiate(m, sample, "").1 == Response(
        id, Lookup(m.applications[id], "invoice_id"), Lookup(m.applications[id], "status"),
        Lookup(m.applications[id], "workflow_id"), true);
    assert DbInitiate(rows, sample, "").1 == Success(Found(rows, id));
  }

  /**
   After an update with arbitrary extras the backends give the same status of its application, and the
   same answers to repeats of its key if it has one, exactly when the extras are harmless to them.
   */
  lemma ExtrasAgreeExactly(m: Memory, rows: Rows, id: Id, gate: string, status: string, extra: Extras)
    requires Alike(m, rows) && id in rows
    ensures var m', rows' := MemoryUpdate(m, id, gate, status, extra).0, DbUpdate(rows, id, gate, status, extra).0;
      && MemoryValid(m') && UniqueKeys(rows')
      && (MemoryStatus(m', id) == DbStatus(rows', id) <==> HarmlessToStatus(rows[id], gate, extra))
      && (rows[id].key.Some? && rows[id].key.value != "" ==>
            (RepeatsAlike(m', rows', id) <==> HarmlessToRepeats(rows[id], extra)))
  {
    var m', rows' := MemoryUpdate(m, id, gate, status, extra).0, DbUpdate(rows, id, gate, status, extra).0;
    StatusAfterUpdate(m.applications[id], rows[id], gate, status, extra);
    SameKeysAfter(m.index, rows, id, rows'[id]);
    assert m'.applications[id] == UpdatedApp(m.applications[id], gate, status, extra);
    assert rows'[id] == UpdatedRecord(rows[id], gate, status, extra);
    StatusesRead(m', rows', id);
    if rows[id].key.Some? && rows[id].key.value != "" {
      RepeatsTold(m', rows', id);
    }
  }

  lemma StatusesRead(m: Memory, rows: Rows, id: Id)
    requires id in m.applications && id in rows
    ensures var app, row := m.applications[id], rows[id];
      MemoryStatus(m, id) == DbStatus(rows, id) <==>
        && Lookup(app, "status") == Text(row.status)
        && Lookup(app, "current_gate") == Text(row.currentGate)
        && Lookup(app, "amount_requested") == Amount(row.amountRequested)
        && Lookup(app, "amount_sanctioned") == row.amountSanctioned
        && Lookup(app, "lender_id") == row.selectedLenderId
  {
  }

  /** The extras of an update that names the selected lender. */
  function Selecting(lender: string): (extra: Extras)
    ensures "selected_lender_id" in extra && extra["selected_lender_id"] == Text(lender)
    ensures "lender_id" !in extra && "amount_requested" !in extra && "current_gate" !in extra
  {
    FieldNamesDiffer();
    assert |"self"| == 4 && |"gate"| == 4;
    map["selected_lender_id" := Text(lender)]
  }

  /** Naming the selected lender in an update: the database tells, the dictionary files it under another name. */
  lemma SelectedLenderSplits(m: Memory, rows: Rows, id: Id, gate: string, status: string, lender: string)
    requires Alike(m, rows) && id in rows && rows[id].selectedLenderId == Missing
    ensures var m', rows' := MemoryUpdate(m, id, gate, status, Selecting(lender)).0,
                             DbUpdate(rows, id, gate, status, Selecting(lender)).0;
      && MemoryStatus(m', id).Success? && MemoryStatus(m', id).value.lenderId == Missing
      && DbStatus(rows', id).Success? && DbStatus(rows', id).value.lenderId == Text(lender)
  {
    OtherFields();
    assert SameRow(m.applications[id], rows[id]);
    UpdatedField(m.applications[id], gate, status, Selecting(lender), "lender_id");
  }

  /** Such an application exists after the first request to empty stores. */
  lemma FirstApplicationHasNoLender(r: Request, id: Id)
    ensures var m, rows := MemoryInitiate(Memory(map[], map[]), r, id).0, DbInitiate(map[], r, id).0;
      Alike(m, rows) && id in rows && rows[id].selectedLenderId == Missing
  {
    InitiateAlike(Memory(map[], map[]), map[], r, id);
  }
}

/** Sessions that select and commit at different times, over one table. */
module GatewaySessions {
  import opened Wrappers
  import opened Gateway

  type SessionId = nat

  datatype Event =
    | Select(session: SessionId, request: Request)
    | Commit(session: SessionId, freshId: Id)

  /** A request that has been answered, and the application it found or was to become. */
  datatype Served = Served(request: Request, id: Id, answer: Result<Response, Error>)

  datatype State = State(rows: Rows, pending: map<SessionId, Request>, served: seq<Served>)

  /** A request answered at its select. */
  function ServedAtSelect(rows: Rows, r: Request): Served
    requires UniqueKeys(rows) && r.Keyed() && KeyUsed(rows, r.key.value)
  {
    Served(r, RowOf(rows, r.key.value), Success(Found(rows, RowOf(rows, r.key.value))))
  }

  /** A request answered at its commit. */
  function ServedAtCommit(rows: Rows, r: Request, id: Id): Served {
    if r.key.Some? && KeyUsed(rows, r.key.value) then Served(r, id, Failure(IntegrityError))
    else Served(r, id, Success(Inserted(r, id)))
  }

  /**
   A select that finds the key answers at once; otherwise the session holds its new row until it
   commits, and the constraint on the key decides then.
   */
  function Step(s: State, e: Event): State
    requires UniqueKeys(s.rows)
  {
    match e
    case Select(session, r) =>
      if session in s.pending then s
      else if r.Keyed() && KeyUsed(s.rows, r.key.value) then
        s.(served := s.served + [ServedAtSelect(s.rows, r)])
      else s.(pending := s.pending[session := r])
    case Commit(session, id) =>
      if session !in s.pending || id in s.rows then s
      else
        var r := s.pending[session];
        State(
          if r.key.Some? && KeyUsed(s.rows, r.key.value) then s.rows else s.rows[id := NewRecord(r, id)],
          s.pending - {session}, s.served + [ServedAtCommit(s.rows, r, id)])
  }

  /** The table after one session has dealt with the requests alone, in the order they were answered. */
  ghost function SequentialRows(served: seq<Served>): (rows: Rows)
    ensures UniqueKeys(rows)
  {
    if served == [] then map[]
    else
      var last := served[|served| - 1];
      DbInitiate(SequentialRows(served[..|served| - 1]), last.request, last.id).0
  }

  /** The answer is the sequential one, or a conflict where a session alone would have found the key. */
  ghost predicate Explained(rows: Rows, x: Served)
    requires UniqueKeys(rows)
  {
    var alone := DbInitiate(rows, x.request, x.id).1;
    x.answer == alone ||
    (x.answer == Failure(IntegrityError) && x.request.Keyed() && alone.Success? && alone.value.existing)
  }

  /** A successful answer names an application with the key that was asked for. */
  ghost predicate NamesKey(rows: Rows, x: Served) {
    x.answer.Success? ==>
      x.answer.value.applicationId in rows && rows[x.answer.value.applicationId].key == x.request.key
  }

  ghost predicate Inv(s: State) {
    && UniqueKeys(s.rows) && s.rows == SequentialRows(s.served)
    && (forall n :: 0 <= n < |s.served| ==> Explained(SequentialRows(s.served[..n]), s.served[n]))
    && (forall n :: 0 <= n < |s.served| ==> NamesKey(s.rows, s.served[n]))
  }

  lemma SequentialSnoc(served: seq<Served>, x: Served)
    ensures SequentialRows(served + [x]) == DbInitiate(SequentialRows(served), x.request, x.id).0
  {
    assert (served + [x])[..|served|] == served;
  }

  lemma ExplainedInPlace(served: seq<Served>, x: Served, n: nat)
    requires n <= |served|
    requires n < |served| ==> Explained(SequentialRows(served[..n]), served[n])
    requires n == |served| ==> Explained(SequentialRows(served), x)
    ensures Explained(SequentialRows((served + [x])[..n]), (served + [x])[n])
  {
    assert (served + [x])[..n] == served[..n];
    if n == |served| {
      assert served[..n] == served;
    }
  }

  lemma ServedSnoc(served: seq<Served>, x: Served)
    requires forall n :: 0 <= n < |served| ==> Explained(SequentialRows(served[..n]), served[n])
    requires Explained(SequentialRows(served), x)
    ensures SequentialRows(served + [x]) == DbInitiate(SequentialRows(served), x.request, x.id).0
    ensures forall n :: 0 <= n <= |served| ==> Explained(SequentialRows((served + [x])[..n]), (served + [x])[n])
  {
    SequentialSnoc(served, x);
    forall n | 0 <= n <= |served| ensures Explained(SequentialRows((served + [x])[..n]), (served + [x])[n]) {
      ExplainedInPlace(served, x, n);
    }
  }

  lemma ServeKeepsInv(s: State, x: Served, t: State)
    requires Inv(s) && Explained(s.rows, x)
    requires t.served == s.served + [x] && t.rows == DbInitiate(s.rows, x.request, x.id).0
    requires NamesKey(t.rows, x) && (x.id in s.rows ==> t.rows == s.rows)
    ensures Inv(t)
  {
    ServedSnoc(s.served, x);
    forall n | 0 <= n < |t.served| ensures NamesKey(t.rows, t.served[n]) {
      assert n < |s.served| ==> t.served[n] == s.served[n] && NamesKey(s.rows, s.served[n]);
    }
  }

  lemma SelectIsExplained(rows: Rows, r: Request)
    requires UniqueKeys(rows) && r.Keyed() && KeyUsed(rows, r.key.value)
    ensures var x := ServedAtSelect(rows, r);
      Explained(rows, x) && NamesKey(rows, x) && DbInitiate(rows, r, x.id).0 == rows
  {
  }

  lemma CommitIsExplained(rows: Rows, r: Request, id: Id)
    requires UniqueKeys(rows) && id !in rows
    ensures var x, after := ServedAtCommit(rows, r, id), DbInitiate(rows, r, id).0;
      Explained(rows, x) && NamesKey(after, x)
    ensures DbInitiate(rows, r, id).0 ==
      if r.key.Some? && KeyUsed(rows, r.key.value) then rows else rows[id := NewRecord(r, id)]
  {
  }

  lemma StepKeepsInv(s: State, e: Event)
    requires Inv(s)
    ensures Inv(Step(s, e))
  {
    match e {
      case Select(session, r) =>
        if session !in s.pending && r.Keyed() && KeyUsed(s.rows, r.key.value) {
          SelectIsExplained(s.rows, r);
          ServeKeepsInv(s, ServedAtSelect(s.rows, r), Step(s, e));
        }
      case Commit(session, id) =>
        if session in s.pending && id !in s.rows {
          CommitIsExplained(s.rows, s.pending[session], id);
          ServeKeepsInv(s, ServedAtCommit(s.rows, s.pending[session], id), Step(s, e));
        }
    }
  }

  const EMPTY: State := State(map[], map[], [])

  ghost function Run(events: seq<Event>): (s: State)
    ensures UniqueKeys(s.rows)
  {
    if events == [] then EMPTY
    else
      var before := Run(events[..|events| - 1]);
      StepKeepsKeys(before, events[|events| - 1]);
      Step(before, events[|events| - 1])
  }

  lemma StepKeepsKeys(s: State, e: Event)
    requires UniqueKeys(s.rows)
    ensures UniqueKeys(Step(s, e).rows)
  {
  }

  lemma {:induction false} RunKeepsInv(events: seq<Event>)
    ensures Inv(Run(events))
  {
    if events != [] {
      RunKeepsInv(events[..|events| - 1]);
      StepKeepsInv(Run(events[..|events| - 1]), events[|events| - 1]);
    }
  }

  /**
   However selects and commits of any number of sessions interleave, table and answers are those of a
   single session that deals with the requests one after another, in the order they are answered, but
   that a request may be told of a conflict where it would have been given the existing application.
   */
  lemma InterleavingIsSequential(events: seq<Event>)
    ensures var s := Run(events);
      s.rows == SequentialRows(s.served) &&
      forall n :: 0 <= n < |s.served| ==> Explained(SequentialRows(s.served[..n]), s.served[n])
  {
    RunKeepsInv(events);
  }

  // ------------------------------------------------------------------------------------------
  // When a request is told of a conflict
  // ------------------------------------------------------------------------------------------

  /** From the n-th answer on, some request with the key was answered with an application. */
  predicate KeyServed(served: seq<Served>, n: nat, key: string) {
    exists k :: n <= k < |served| && served[k].answer.Success? && served[k].request.key == Some(key)
  }

  /** No event of the session. */
  predicate Silent(events: seq<Event>, session: SessionId) {
    forall e :: e in events ==> e.session != session
  }

  lemma RunSnoc(events: seq<Event>, e: Event)
    ensures Run(events + [e]) == Step(Run(events), e)
  {
    assert (events + [e])[..|events|] == events;
  }

  /** A key is in use after a step if it was before, or if the step answered a request for it with an application. */
  lemma StepUsesKey(s: State, e: Event, key: string)
    requires UniqueKeys(s.rows)
    ensures var t := Step(s, e);
      && s.served <= t.served
      && (KeyUsed(t.rows, key) <==> KeyUsed(s.rows, key) || KeyServed(t.served, |s.served|, key))
  {
    var t := Step(s, e);
    if t.served != s.served {
      assert t.served[|s.served|..] == [t.served[|s.served|]];
      if t.rows != s.rows {
        assert t.rows[e.freshId].key == t.served[|s.served|].request.key;
        assert forall id :: id in s.rows ==> t.rows[id] == s.rows[id];
      }
    }
  }

  lemma KeyServedSplits(shorter: seq<Served>, longer: seq<Served>, n: nat, key: string)
    requires shorter <= longer && n <= |shorter|
    ensures KeyServed(longer, n, key) <==> KeyServed(shorter, n, key) || KeyServed(longer, |shorter|, key)
  {
    assert forall k :: 0 <= k < |shorter| ==> longer[k] == shorter[k];
  }

  /** The session has waited from s to t, and the key came into use only as others were answered. */
  ghost predicate WaitedFrom(s: State, t: State, session: SessionId, key: string)
    requires session in s.pending
  {
    && session in t.pending && t.pending[session] == s.pending[session] && s.served <= t.served
    && (KeyUsed(t.rows, key) <==> KeyUsed(s.rows, key) || KeyServed(t.served, |s.served|, key))
  }

  lemma WaitsOn(s: State, u: State, e: Event, session: SessionId, key: string)
    requires session in s.pending && UniqueKeys(u.rows) && WaitedFrom(s, u, session, key) && e.session != session
    ensures WaitedFrom(s, Step(u, e), session, key)
  {
    StepUsesKey(u, e, key);
    KeyServedSplits(u.served, Step(u, e).served, |s.served|, key);
  }

  /** A silent session with a row to commit keeps waiting, and keys come into use as others are answered. */
  lemma {:induction false} SilentSessionWaits(p: seq<Event>, q: seq<Event>, session: SessionId, key: string)
    requires session in Run(p).pending && Silent(q, session)
    ensures WaitedFrom(Run(p), Run(p + q), session, key)
    decreases |q|
  {
    if q == [] {
      assert p + q == p;
    } else {
      var front, e := q[..|q| - 1], q[|q| - 1];
      assert q == front + [e] && p + q == (p + front) + [e];
      assert e in q && forall x :: x in front ==> x in q;
      SilentSessionWaits(p, front, session, key);
      RunSnoc(p + front, e);
      WaitsOn(Run(p), Run(p + front), e, session, key);
    }
  }

  /**
   A session selects after p, finds nothing, is silent during q and then commits.  It is told of a
   conflict exactly when its key is in use by then: because another request for it has been answered with
   an application since the select, or, for an empty key, which a select does not look for, before it.
   */
  lemma ConflictExactly(p: seq<Event>, session: SessionId, r: Request, q: seq<Event>, id: Id)
    requires session !in Run(p).pending && !(r.Keyed() && KeyUsed(Run(p).rows, r.key.value))
    requires Silent(q, session) && id !in Run(p + [Select(session, r)] + q).rows
    ensures var before, after := Run(p + [Select(session, r)] + q),
                                 Run(p + [Select(session, r)] + q + [Commit(session, id)]);
      var taken := r.key.Some? &&
        (KeyUsed(Run(p).rows, r.key.value) || KeyServed(before.served, |Run(p).served|, r.key.value));
      after.served == before.served +
        [Served(r, id, if taken then Failure(IntegrityError) else Success(Inserted(r, id)))]
  {
    RunSnoc(p, Select(session, r));
    SilentSessionWaits(p + [Select(session, r)], q, session, r.key.GetOr(""));
    RunSnoc(p + [Select(session, r)] + q, Commit(session, id));
  }

  /** Two sessions select one new key before either commits: the second to commit is told of a conflict. */
  lemma SecondCommitConflicts(r: Request, r': Request, a: Id, b: Id)
    requires r.Keyed() && r'.key == r.key && a != b
    ensures Run([Select(0, r), Select(1, r'), Commit(0, a), Commit(1, b)]).served ==
      [Served(r, a, Success(Inserted(r, a))), Served(r', b, Failure(IntegrityError))]
  {
    assert [] + [Select(0, r)] == [Select(0, r)];
    RunSnoc([], Select(0, r));
    assert [Select(0, r)] + [Select(1, r')] == [Select(0, r), Select(1, r')];
    RunSnoc([Select(0, r)], Select(1, r'));
    assert [Select(0, r), Select(1, r')] + [Commit(0, a)] == [Select(0, r), Select(1, r'), Commit(0, a)];
    RunSnoc([Select(0, r), Select(1, r')], Commit(0, a));
    var three := Run([Select(0, r), Select(1, r'), Commit(0, a)]);
    assert three.rows[a].key == Some(r.key.value);
    assert [Select(0, r), Select(1, r'), Commit(0, a)] + [Commit(1, b)] ==
      [Select(0, r), Select(1, r'), Commit(0, a), Commit(1, b)];
    RunSnoc([Select(0, r), Select(1, r'), Commit(0, a)], Commit(1, b));
  }

  /** Any two successful answers to requests with one nonempty key name the same application. */
  lemma OneApplicationPerKey(events: seq<Event>, i: nat, j: nat)
    requires i < |Run(events).served| && j < |Run(events).served|
    requires Run(events).served[i].answer.Success? && Run(events).served[j].answer.Success?
    requires Run(events).served[i].request.Keyed()
    requires Run(events).served[i].request.key == Run(events).served[j].request.key
    ensures Run(events).served[i].answer.value.applicationId == Run(events).served[j].answer.value.applicationId
  {
    var s := Run(events);
    RunKeepsInv(events);
    assert NamesKey(s.rows, s.served[i]) && NamesKey(s.rows, s.served[j]);
  }
}
