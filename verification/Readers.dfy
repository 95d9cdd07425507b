/**
 The six source readers: which rows of their tables match a request, and the observation made of
 each; and the observation made of the request alone. Requests and rows are given as the
 normalised values that the readers compare, absent where normalisation finds nothing.
 */
module Readers {
  import opened Options
  import opened Sequences
  import opened Observations
  import Phones

  datatype Request = Request(
    waId: Option<string>,
    email: Option<string>,
    phone: Option<string>,
    idCustomer: Option<string>,
    idOrder: Option<string>,
    invoiceNumber: Option<string>,
    caseId: Option<string>,
    messageId: Option<string>)

  /** A row through the columns its reader looks at; `recordId` is the first usable id column. */
  datatype Row = Row(
    recordId: Option<string>,
    waId: Option<string>,
    email: Option<string>,
    phone: Option<string>,
    idCustomer: Option<string>,
    idOrder: Option<string>,
    invoiceNumber: Option<string>,
    caseId: Option<string>,
    messageId: Option<string>)

  datatype Table = MasterCustomer | PsCustomer | PsAddress | PsOrders | Cases | InboundMessages | ConversationMessages

  function TableName(t: Table): string {
    match t
    case MasterCustomer => "master_customer"
    case PsCustomer => "ps_customer"
    case PsAddress => "ps_address"
    case PsOrders => "ps_orders"
    case Cases => "n8n_conversation_cases"
    case InboundMessages => "n8n_wa_inbound_messages"
    case ConversationMessages => "n8n_conversation_messages"
  }

  function SourceOf(t: Table): Source {
    match t
    case MasterCustomer => Mariadb
    case PsCustomer | PsAddress | PsOrders => Prestashop
    case Cases | InboundMessages | ConversationMessages => N8n
  }

  /** Both values are there, and equal. */
  predicate Same(a: Option<string>, b: Option<string>) {
    a.Some? && a == b
  }

  /** Prefix and value with a colon between them, if there is a value. */
  function Keyed(prefix: string, value: Option<string>): Option<string> {
    if value.Some? then Some(prefix + ":" + value.value) else None
  }

  datatype Criterion =
    | ById | ByIdCustomer | ByIdOrder | ByInvoiceNumber | ByEmail | ByWaId | ByPhone | ByCase | ByMessage

  function CriterionName(c: Criterion): string {
    match c
    case ById => "id"
    case ByIdCustomer => "id_customer"
    case ByIdOrder => "id_order"
    case ByInvoiceNumber => "invoice_number"
    case ByEmail => "email"
    case ByWaId => "wa_id"
    case ByPhone => "phone_normalized"
    case ByCase => "conversation_case_id"
    case ByMessage => "message_id"
  }

  /** What a reader takes from a row: how it matched, and as what. */
  datatype Match = Match(
    matchedBy: Criterion,
    identityType: Option<IdentityType>,
    value: Option<string>,
    confidence: Confidence)

  lemma KeyedDiffers(prefix: string, a: Option<string>, b: Option<string>)
    requires a.Some? && b.Some? && a != b
    ensures Keyed(prefix, a) != Keyed(prefix, b)
  {
    assert (prefix + ":" + a.value)[|prefix| + 1..] == a.value;
    assert (prefix + ":" + b.value)[|prefix| + 1..] == b.value;
  }

  // ----- one row of each table

  function MatchMaster(q: Request, row: Row): Option<Match> {
    if Same(q.idCustomer, row.idCustomer) then Some(Match(ById, Some(CustomerMasterId), row.idCustomer, High))
    else if Same(q.email, row.email) then Some(Match(ByEmail, Some(Email), row.email, High))
    else None
  }

  function MatchCustomer(q: Request, row: Row): Option<Match> {
    if Same(q.idCustomer, row.idCustomer) then
      Some(Match(ByIdCustomer, Some(PrestashopCustomerId), row.idCustomer, High))
    else if Same(q.email, row.email) then Some(Match(ByEmail, Some(Email), row.email, High))
    else None
  }

  /** The four-way phone test, as `Phones.MatchByPhone` sums it up. */
  function MatchAddress(q: Request, row: Row): Option<Match> {
    if Same(q.idCustomer, row.idCustomer) then
      Some(Match(ByIdCustomer, Some(PrestashopCustomerId), row.idCustomer, High))
    else if Same(q.phone, row.phone) || Same(q.waId, row.phone) then
      Some(Match(ByPhone, Some(Phone), row.phone, Medium))
    else None
  }

  function MatchOrder(q: Request, row: Row): Option<Match> {
    if Same(q.idCustomer, row.idCustomer) then
      Some(Match(ByIdCustomer, Some(PrestashopCustomerId), row.idCustomer, High))
    else if Same(q.idOrder, row.idOrder) then Some(Match(ByIdOrder, Some(OrderId), row.idOrder, High))
    else if Same(q.invoiceNumber, row.invoiceNumber) then
      Some(Match(ByInvoiceNumber, Some(InvoiceNumber), row.invoiceNumber, High))
    else if Same(q.email, row.email) then Some(Match(ByEmail, Some(Email), row.email, High))
    else None
  }

  /** The identity by customer, order, invoice or e-mail, for the rows of the legacy tables. */
  function LegacyIdentity(q: Request, row: Row, otherwise: (Option<IdentityType>, Option<string>))
    : (Option<IdentityType>, Option<string>)
  {
    if Same(q.idCustomer, row.idCustomer) then (Some(PrestashopCustomerId), row.idCustomer)
    else if Same(q.idOrder, row.idOrder) then (Some(OrderId), row.idOrder)
    else if Same(q.invoiceNumber, row.invoiceNumber) then (Some(InvoiceNumber), row.invoiceNumber)
    else if Same(q.email, row.email) then (Some(Email), row.email)
    else otherwise
  }

  function PhoneIdentity(q: Request, row: Row, otherwise: (Option<IdentityType>, Option<string>))
    : (Option<IdentityType>, Option<string>)
  {
    if Same(q.waId, row.waId) then (Some(WaId), row.waId)
    else if Same(q.phone, row.phone) then (Some(Phone), row.phone)
    else otherwise
  }

  predicate MatchesTransaction(q: Request, row: Row) {
    Same(q.idCustomer, row.idCustomer) || Same(q.idOrder, row.idOrder) || Same(q.invoiceNumber, row.invoiceNumber)
  }

  function ByTransaction(q: Request, row: Row): Criterion {
    if Same(q.idCustomer, row.idCustomer) then ByIdCustomer
    else if Same(q.idOrder, row.idOrder) then ByIdOrder
    else ByInvoiceNumber
  }

  function MatchCase(q: Request, row: Row): Option<Match> {
    var identity := LegacyIdentity(q, row, PhoneIdentity(q, row, (None, None)));
    if Same(q.caseId, row.caseId) then Some(Match(ByCase, identity.0, identity.1, Medium))
    else if MatchesTransaction(q, row) then Some(Match(ByTransaction(q, row), identity.0, identity.1, Medium))
    else if Same(q.email, row.email) then Some(Match(ByEmail, identity.0, identity.1, Low))
    else if Same(q.waId, row.waId) then Some(Match(ByWaId, identity.0, identity.1, Low))
    else if Same(q.phone, row.phone) then Some(Match(ByPhone, identity.0, identity.1, Low))
    else None
  }

  function MatchInbound(q: Request, row: Row): Option<Match> {
    var identity := PhoneIdentity(q, row, LegacyIdentity(q, row, (None, None)));
    var confidence := if Same(q.messageId, row.messageId) || MatchesTransaction(q, row) then Medium else Low;
    if Same(q.messageId, row.messageId) then Some(Match(ByMessage, identity.0, identity.1, confidence))
    else if Same(q.waId, row.waId) then Some(Match(ByWaId, identity.0, identity.1, confidence))
    else if Same(q.phone, row.phone) then Some(Match(ByPhone, identity.0, identity.1, confidence))
    else if MatchesTransaction(q, row) then Some(Match(ByTransaction(q, row), identity.0, identity.1, confidence))
    else if Same(q.email, row.email) then Some(Match(ByEmail, identity.0, identity.1, confidence))
    else None
  }

  function MatchOf(t: Table, q: Request, row: Row): Option<Match> {
    match t
    case MasterCustomer => MatchMaster(q, row)
    case PsCustomer => MatchCustomer(q, row)
    case PsAddress => MatchAddress(q, row)
    case PsOrders => MatchOrder(q, row)
    case Cases => MatchCase(q, row)
    case InboundMessages | ConversationMessages => MatchInbound(q, row)
  }

  /** The id column of the row, or else what identifies the row. */
  function RecordId(t: Table, row: Row): Option<string> {
    row.recordId.OrElse(
      match t
      case MasterCustomer | PsCustomer => row.idCustomer.OrElse(row.email)
      case PsAddress => row.idCustomer.OrElse(row.phone)
      case PsOrders => row.idOrder.OrElse(row.invoiceNumber)
      case Cases => row.caseId.OrElse(row.waId).OrElse(row.phone)
      case InboundMessages | ConversationMessages => row.messageId.OrElse(row.waId).OrElse(row.phone))
  }

  /** The PrestaShop customer or order that a row, or else the request, points to. */
  function TransactionKey(q: Request, row: Row): Option<string> {
    Keyed("prestashop", row.idCustomer.OrElse(q.idCustomer))
    .OrElse(Keyed("prestashop:order", row.idOrder.OrElse(q.idOrder)))
  }

  function CustomerKey(t: Table, q: Request, row: Row): Option<string> {
    match t
    case MasterCustomer => Keyed("customer_master", row.idCustomer).OrElse(Keyed("customer_master:email", row.email))
    case PsCustomer =>
      Keyed("prestashop", row.idCustomer.OrElse(q.idCustomer))
      .OrElse(Keyed("prestashop:email", row.email.OrElse(q.email)))
    case PsAddress =>
      Keyed("prestashop", row.idCustomer.OrElse(q.idCustomer))
      .OrElse(Keyed("candidate:phone", row.phone.OrElse(q.phone).OrElse(q.waId)))
    case PsOrders =>
      TransactionKey(q, row).OrElse(Keyed("prestashop:invoice", row.invoiceNumber.OrElse(q.invoiceNumber)))
    case Cases =>
      TransactionKey(q, row)
      .OrElse(Keyed("candidate:legacy-case", row.caseId.OrElse(q.caseId)))
      .OrElse(Keyed("candidate:wa_id", row.waId.OrElse(q.waId)))
      .OrElse(Keyed("candidate:phone", row.phone.OrElse(q.phone)))
    case InboundMessages | ConversationMessages =>
      TransactionKey(q, row)
      .OrElse(Keyed("candidate:n8n:message", row.messageId.OrElse(q.messageId)))
      .OrElse(Keyed("candidate:n8n:wa_id", row.waId.OrElse(q.waId)))
      .OrElse(Keyed("candidate:n8n:phone", row.phone.OrElse(q.phone)))
  }

  function Observe(t: Table, q: Request, row: Row): Option<Observation> {
    var m := MatchOf(t, q, row);
    if m.None? then None
    else Some(Observation(SourceOf(t), TableName(t), RecordId(t, row), CriterionName(m.value.matchedBy),
                          m.value.identityType, m.value.value, m.value.confidence, CustomerKey(t, q, row)))
  }

  // ----- the first criterion that fits decides

  /** What each reader compares, and the place of each criterion in its order of preference. */
  function Place(t: Table, c: Criterion): Option<nat> {
    match t
    case MasterCustomer => if c == ById then Some(0) else if c == ByEmail then Some(1) else None
    case PsCustomer => if c == ByIdCustomer then Some(0) else if c == ByEmail then Some(1) else None
    case PsAddress => if c == ByIdCustomer then Some(0) else if c == ByPhone then Some(1) else None
    case PsOrders =>
      (match c
       case ByIdCustomer => Some(0) case ByIdOrder => Some(1) case ByInvoiceNumber => Some(2) case ByEmail => Some(3)
       case _ => None)
    case Cases =>
      (match c
       case ByCase => Some(0) case ByIdCustomer => Some(1) case ByIdOrder => Some(2) case ByInvoiceNumber => Some(3)
       case ByEmail => Some(4) case ByWaId => Some(5) case ByPhone => Some(6) case _ => None)
    case InboundMessages | ConversationMessages =>
      (match c
       case ByMessage => Some(0) case ByWaId => Some(1) case ByPhone => Some(2) case ByIdCustomer => Some(3)
       case ByIdOrder => Some(4) case ByInvoiceNumber => Some(5) case ByEmail => Some(6) case _ => None)
  }

  predicate Equal(t: Table, q: Request, row: Row, c: Criterion) {
    match c
    case ById | ByIdCustomer => Same(q.idCustomer, row.idCustomer)
    case ByIdOrder => Same(q.idOrder, row.idOrder)
    case ByInvoiceNumber => Same(q.invoiceNumber, row.invoiceNumber)
    case ByEmail => Same(q.email, row.email)
    case ByWaId => Same(q.waId, row.waId)
    case ByPhone => Same(q.phone, row.phone) || (t == PsAddress && Same(q.waId, row.phone))
    case ByCase => Same(q.caseId, row.caseId)
    case ByMessage => Same(q.messageId, row.messageId)
  }

  predicate Fits(t: Table, q: Request, row: Row, c: Criterion) {
    Place(t, c).Some? && Equal(t, q, row, c)
  }

  /** The identity that a criterion establishes; a case or a message establishes none. */
  function Established(c: Criterion, row: Row): (Option<IdentityType>, Option<string>) {
    match c
    case ById => (Some(CustomerMasterId), row.idCustomer)
    case ByIdCustomer => (Some(PrestashopCustomerId), row.idCustomer)
    case ByIdOrder => (Some(OrderId), row.idOrder)
    case ByInvoiceNumber => (Some(InvoiceNumber), row.invoiceNumber)
    case ByEmail => (Some(Email), row.email)
    case ByWaId => (Some(WaId), row.waId)
    case ByPhone => (Some(Phone), row.phone)
    case ByCase | ByMessage => (None, None)
  }

  /** `c` fits, and none of the others in `among` that fit comes before it. */
  ghost predicate FirstFit(t: Table, q: Request, row: Row, c: Criterion, among: set<Criterion>) {
    && c in among && Fits(t, q, row, c)
    && forall d <- among :: Fits(t, q, row, d) ==> Place(t, c).value <= Place(t, d).value
  }

  const CRITERIA: set<Criterion> :=
    {ById, ByIdCustomer, ByIdOrder, ByInvoiceNumber, ByEmail, ByWaId, ByPhone, ByCase, ByMessage}

  const IDENTITIES: set<Criterion> := {ById, ByIdCustomer, ByIdOrder, ByInvoiceNumber, ByEmail, ByWaId, ByPhone}

  lemma SomeCriterionFits(t: Table, q: Request, row: Row)
    ensures MatchOf(t, q, row).None? <==> forall c <- CRITERIA :: !Fits(t, q, row, c)
  {
  }

  lemma MatchIsFirstFit(t: Table, q: Request, row: Row)
    ensures MatchOf(t, q, row).Some? ==> FirstFit(t, q, row, MatchOf(t, q, row).value.matchedBy, CRITERIA)
  {
  }

  function CriterionOf(t: IdentityType): Criterion {
    match t
    case CustomerMasterId => ById
    case PrestashopCustomerId => ByIdCustomer
    case OrderId => ByIdOrder
    case InvoiceNumber => ByInvoiceNumber
    case Email => ByEmail
    case WaId => ByWaId
    case Phone | Rut | AppsheetCustomerId => ByPhone
  }

  lemma IdentityFits(t: Table, q: Request, row: Row)
    requires MatchOf(t, q, row).Some? && MatchOf(t, q, row).value.identityType.Some?
    ensures FirstFit(t, q, row, CriterionOf(MatchOf(t, q, row).value.identityType.value), IDENTITIES)
  {
  }

  lemma IdentityIsEstablished(t: Table, q: Request, row: Row)
    requires MatchOf(t, q, row).Some? && MatchOf(t, q, row).value.identityType.Some?
    ensures var m := MatchOf(t, q, row).value;
      Established(CriterionOf(m.identityType.value), row) == (m.identityType, m.value)
  {
  }

  lemma NoIdentityFits(t: Table, q: Request, row: Row)
    requires MatchOf(t, q, row).Some? && MatchOf(t, q, row).value.identityType.None?
    ensures forall c <- IDENTITIES :: !Fits(t, q, row, c)
  {
  }

  /** A row is observed exactly when a criterion of its reader fits; the first that does names match and identity. */
  lemma FirstFitDecides(t: Table, q: Request, row: Row)
    ensures var m := MatchOf(t, q, row);
      && (m.None? <==> forall c <- CRITERIA :: !Fits(t, q, row, c))
      && (m.Some? ==> FirstFit(t, q, row, m.value.matchedBy, CRITERIA))
      && (m.Some? && m.value.identityType.None? ==> forall c <- IDENTITIES :: !Fits(t, q, row, c))
      && (m.Some? && m.value.identityType.Some? ==>
            exists c :: FirstFit(t, q, row, c, IDENTITIES)
              && Established(c, row) == (m.value.identityType, m.value.value))
  {
    SomeCriterionFits(t, q, row);
    MatchIsFirstFit(t, q, row);
    var m := MatchOf(t, q, row);
    if m.Some? && m.value.identityType.Some? {
      IdentityFits(t, q, row);
      IdentityIsEstablished(t, q, row);
    } else if m.Some? {
      NoIdentityFits(t, q, row);
    }
  }

  /** A legacy row is worth more than a hint only if case, message, customer, order or invoice fits. */
  lemma LowIff(t: Table, q: Request, row: Row)
    requires MatchOf(t, q, row).Some?
    ensures MatchOf(t, q, row).value.confidence == Low <==>
      && SourceOf(t) == N8n && !Fits(t, q, row, ByCase) && !Fits(t, q, row, ByMessage)
      && !Fits(t, q, row, ByIdCustomer) && !Fits(t, q, row, ByIdOrder) && !Fits(t, q, row, ByInvoiceNumber)
  {
  }

  /** A row is observed exactly if it matches; the source tells which of the systems its table belongs to. */
  lemma ObservedForm(t: Table, q: Request, row: Row)
    ensures var o := Observe(t, q, row);
      && (o.Some? <==> exists c <- CRITERIA :: Fits(t, q, row, c))
      && (o.Some? ==>
            && (o.value.source == Mariadb <==> t == MasterCustomer)
            && (o.value.source == Prestashop <==> t == PsCustomer || t == PsAddress || t == PsOrders)
            && (o.value.source == N8n <==> t == Cases || t == InboundMessages || t == ConversationMessages)
            && o.value.table == TableName(t) && o.value.sourceRecordId == RecordId(t, row)
            && o.value.customerKey == CustomerKey(t, q, row)
            && exists c :: FirstFit(t, q, row, c, CRITERIA) && o.value.matchedBy == CriterionName(c))
  {
    FirstFitDecides(t, q, row);
  }

  // ----- keys and record ids, as lists to be tried in turn

  /** `r` is the first of the values that is there; it is absent if all are. */
  ghost predicate FirstPresent(r: Option<string>, values: seq<Option<string>>) {
    if r.None? then forall v <- values :: v.None?
    else exists i :: 0 <= i < |values| && values[i] == r && forall j :: 0 <= j < i ==> values[j].None?
  }

  /** Two values to try under one prefix, and what to try after them. */
  ghost function Tried(prefix: string, a: Option<string>, b: Option<string>, more: seq<Option<string>>)
    : seq<Option<string>>
  {
    [Keyed(prefix, a), Keyed(prefix, b)] + more
  }

  ghost function TransactionChoices(q: Request, row: Row, more: seq<Option<string>>): seq<Option<string>> {
    Tried("prestashop", row.idCustomer, q.idCustomer, Tried("prestashop:order", row.idOrder, q.idOrder, more))
  }

  /** The customer keys a reader could give a row, best first: the value of the row comes before the request's. */
  ghost function KeyChoices(t: Table, q: Request, row: Row): seq<Option<string>> {
    match t
    case MasterCustomer => [Keyed("customer_master", row.idCustomer), Keyed("customer_master:email", row.email)]
    case PsCustomer =>
      Tried("prestashop", row.idCustomer, q.idCustomer, Tried("prestashop:email", row.email, q.email, []))
    case PsAddress =>
      Tried("prestashop", row.idCustomer, q.idCustomer,
            Tried("candidate:phone", row.phone, q.phone, [Keyed("candidate:phone", q.waId)]))
    case PsOrders =>
      TransactionChoices(q, row, Tried("prestashop:invoice", row.invoiceNumber, q.invoiceNumber, []))
    case Cases =>
      TransactionChoices(q, row,
        Tried("candidate:legacy-case", row.caseId, q.caseId,
              Tried("candidate:wa_id", row.waId, q.waId, Tried("candidate:phone", row.phone, q.phone, []))))
    case InboundMessages | ConversationMessages =>
      TransactionChoices(q, row,
        Tried("candidate:n8n:message", row.messageId, q.messageId,
              Tried("candidate:n8n:wa_id", row.waId, q.waId, Tried("candidate:n8n:phone", row.phone, q.phone, []))))
  }

  ghost function RecordChoices(t: Table, row: Row): seq<Option<string>> {
    match t
    case MasterCustomer | PsCustomer => [row.recordId, row.idCustomer, row.email]
    case PsAddress => [row.recordId, row.idCustomer, row.phone]
    case PsOrders => [row.recordId, row.idOrder, row.invoiceNumber]
    case Cases => [row.recordId, row.caseId, row.waId, row.phone]
    case InboundMessages | ConversationMessages => [row.recordId, row.messageId, row.waId, row.phone]
  }

  /** Putting a value in front. */
  lemma FirstPresentStep(first: Option<string>, r: Option<string>, more: seq<Option<string>>)
    requires FirstPresent(r, more)
    ensures FirstPresent(first.OrElse(r), [first] + more)
  {
    if first.Some? {
      assert ([first] + more)[0] == first;
    } else if i :| r.Some? && 0 <= i < |more| && more[i] == r && forall j :: 0 <= j < i ==> more[j].None? {
      assert ([first] + more)[i + 1] == r;
    }
  }

  function FirstOf(values: seq<Option<string>>): Option<string> {
    if values == [] then None else values[0].OrElse(FirstOf(values[1..]))
  }

  lemma {:induction false} FirstOfIsFirst(values: seq<Option<string>>)
    ensures FirstPresent(FirstOf(values), values)
  {
    if values != [] {
      FirstOfIsFirst(values[1..]);
      FirstPresentStep(values[0], FirstOf(values[1..]), values[1..]);
      assert [values[0]] + values[1..] == values;
    }
  }

  lemma FirstOfPrefix(a: Option<string>, b: Option<string>, more: seq<Option<string>>)
    ensures FirstOf([a, b] + more) == a.OrElse(b).OrElse(FirstOf(more))
  {
    assert ([a, b] + more)[1..] == [b] + more && ([b] + more)[1..] == more;
  }

  lemma FirstTried(prefix: string, a: Option<string>, b: Option<string>, more: seq<Option<string>>)
    ensures FirstOf(Tried(prefix, a, b, more)) == Keyed(prefix, a.OrElse(b)).OrElse(FirstOf(more))
  {
    FirstOfPrefix(Keyed(prefix, a), Keyed(prefix, b), more);
  }

  lemma FirstTransaction(q: Request, row: Row, more: seq<Option<string>>)
    ensures FirstOf(TransactionChoices(q, row, more)) == TransactionKey(q, row).OrElse(FirstOf(more))
  {
    FirstTried("prestashop:order", row.idOrder, q.idOrder, more);
    FirstTried("prestashop", row.idCustomer, q.idCustomer, Tried("prestashop:order", row.idOrder, q.idOrder, more));
  }

  lemma FirstOfThree(prefixes: (string, string, string), a: (Option<string>, Option<string>),
                     b: (Option<string>, Option<string>), c: (Option<string>, Option<string>))
    ensures FirstOf(Tried(prefixes.0, a.0, a.1, Tried(prefixes.1, b.0, b.1, Tried(prefixes.2, c.0, c.1, []))))
      == Keyed(prefixes.0, a.0.OrElse(a.1)).OrElse(Keyed(prefixes.1, b.0.OrElse(b.1)))
         .OrElse(Keyed(prefixes.2, c.0.OrElse(c.1)))
  {
    FirstTried(prefixes.2, c.0, c.1, []);
    FirstTried(prefixes.1, b.0, b.1, Tried(prefixes.2, c.0, c.1, []));
    FirstTried(prefixes.0, a.0, a.1, Tried(prefixes.1, b.0, b.1, Tried(prefixes.2, c.0, c.1, [])));
  }

  lemma LegacyKeyIsFirst(t: Table, q: Request, row: Row)
    requires SourceOf(t) == N8n
    ensures FirstOf(KeyChoices(t, q, row)) == CustomerKey(t, q, row)
  {
    var first, waIds, phones := if t == Cases then (row.caseId, q.caseId) else (row.messageId, q.messageId),
      (row.waId, q.waId), (row.phone, q.phone);
    var prefixes := if t == Cases then ("candidate:legacy-case", "candidate:wa_id", "candidate:phone")
                    else ("candidate:n8n:message", "candidate:n8n:wa_id", "candidate:n8n:phone");
    FirstOfThree(prefixes, first, waIds, phones);
    FirstTransaction(q, row, Tried(prefixes.0, first.0, first.1,
      Tried(prefixes.1, waIds.0, waIds.1, Tried(prefixes.2, phones.0, phones.1, []))));
  }

  lemma KeyIsFirst(t: Table, q: Request, row: Row)
    ensures FirstOf(KeyChoices(t, q, row)) == CustomerKey(t, q, row)
  {
    match t
    case MasterCustomer =>
      FirstOfPrefix(Keyed("customer_master", row.idCustomer), Keyed("customer_master:email", row.email), []);
      assert KeyChoices(t, q, row) == KeyChoices(t, q, row) + [];
    case PsCustomer =>
      FirstTried("prestashop:email", row.email, q.email, []);
      FirstTried("prestashop", row.idCustomer, q.idCustomer, Tried("prestashop:email", row.email, q.email, []));
    case PsAddress =>
      var last := [Keyed("candidate:phone", q.waId)];
      assert last[1..] == [];
      FirstTried("candidate:phone", row.phone, q.phone, last);
      FirstTried("prestashop", row.idCustomer, q.idCustomer, Tried("candidate:phone", row.phone, q.phone, last));
    case PsOrders =>
      FirstTried("prestashop:invoice", row.invoiceNumber, q.invoiceNumber, []);
      FirstTransaction(q, row, Tried("prestashop:invoice", row.invoiceNumber, q.invoiceNumber, []));
    case _ => LegacyKeyIsFirst(t, q, row);
  }

  lemma RecordIdIsFirst(t: Table, row: Row)
    ensures FirstOf(RecordChoices(t, row)) == RecordId(t, row)
  {
    var choices := RecordChoices(t, row);
    FirstOfPrefix(choices[0], choices[1], choices[2..]);
    assert choices == [choices[0], choices[1]] + choices[2..];
    if |choices| == 3 {
      assert choices[2..] == [choices[2]] && [choices[2]][1..] == [];
    } else {
      FirstOfPrefix(choices[2], choices[3], []);
      assert choices[2..] == [choices[2], choices[3]] + [];
    }
  }

  /** Every observation of a row carries the best customer key and record id that its reader can give it. */
  lemma KeysByPreference(t: Table, q: Request, row: Row)
    ensures FirstPresent(CustomerKey(t, q, row), KeyChoices(t, q, row))
    ensures FirstPresent(RecordId(t, row), RecordChoices(t, row))
  {
    FirstOfIsFirst(RecordChoices(t, row));
    RecordIdIsFirst(t, row);
    FirstOfIsFirst(KeyChoices(t, q, row));
    KeyIsFirst(t, q, row);
  }

  // ----- all rows

  /** The observations of the rows that match, in the order of the rows. */
  function Observed(t: Table, q: Request, rows: seq<Row>): seq<Observation> {
    if rows == [] then []
    else
      var front, last := Observed(t, q, rows[..|rows| - 1]), Observe(t, q, rows[|rows| - 1]);
      if last.None? then front else front + [last.value]
  }

  method ReadTable(t: Table, q: Request, rows: seq<Row>) returns (observations: seq<Observation>)
    ensures observations == Observed(t, q, rows)
  {
    observations := [];
    for k := 0 to |rows|
      invariant observations == Observed(t, q, rows[..k])
    {
      assert rows[..k + 1][..k] == rows[..k];
      var o := Observe(t, q, rows[k]);
      if o.None? {
        continue;
      }
      observations := observations + [o.value];
    }
    assert rows[..|rows|] == rows;
  }

  /** The readers' results laid end to end; `rows` are the answers of the database. */
  function Read(q: Request, rows: Table -> seq<Row>): seq<Observation> {
    Observed(MasterCustomer, q, rows(MasterCustomer))
    + Observed(PsCustomer, q, rows(PsCustomer))
    + Observed(PsAddress, q, rows(PsAddress))
    + Observed(PsOrders, q, rows(PsOrders))
    + Observed(Cases, q, rows(Cases))
    + Observed(InboundMessages, q, rows(InboundMessages))
    + Observed(ConversationMessages, q, rows(ConversationMessages))
  }

  // ----- the request alone

  function SyntheticKey(q: Request): Option<string> {
    Keyed("candidate:prestashop", q.idCustomer)
    .OrElse(Keyed("candidate:email", q.email))
    .OrElse(Keyed("candidate:wa_id", q.waId))
    .OrElse(Keyed("candidate:phone", q.phone))
    .OrElse(Keyed("candidate:order", q.idOrder))
    .OrElse(Keyed("candidate:invoice", q.invoiceNumber))
    .OrElse(Keyed("candidate:case", q.caseId))
    .OrElse(Keyed("candidate:message", q.messageId))
  }

  function SyntheticIdentity(q: Request): Option<(IdentityType, string)> {
    if q.email.Some? then Some((Email, q.email.value))
    else if q.idCustomer.Some? then Some((PrestashopCustomerId, q.idCustomer.value))
    else if q.idOrder.Some? then Some((OrderId, q.idOrder.value))
    else if q.invoiceNumber.Some? then Some((InvoiceNumber, q.invoiceNumber.value))
    else if q.phone.Some? then Some((Phone, q.phone.value))
    else if q.waId.Some? then Some((WaId, q.waId.value))
    else None
  }

  function SyntheticObservation(q: Request): Option<Observation> {
    var key, identity := SyntheticKey(q), SyntheticIdentity(q);
    if key.None? || identity.None? then None
    else
      var recordId := q.messageId.OrElse(q.caseId).OrElse(q.idCustomer).OrElse(q.idOrder)
        .OrElse(q.invoiceNumber).OrElse(q.waId).OrElse(q.email).OrElse(q.phone);
      var confidence :=
        if q.email.Some? || q.idCustomer.Some? || q.idOrder.Some? || q.invoiceNumber.Some? then High else Medium;
      Some(Observation(Unknown, "customer_candidate_input", recordId, TypeName(identity.value.0),
                       Some(identity.value.0), Some(identity.value.1), confidence, key))
  }

  lemma FirstOfEight(v: seq<Option<string>>)
    requires |v| == 8
    ensures FirstOf(v)
      == v[0].OrElse(v[1]).OrElse(v[2]).OrElse(v[3]).OrElse(v[4]).OrElse(v[5]).OrElse(v[6]).OrElse(v[7])
  {
    assert v == [v[0], v[1]] + v[2..] && v[2..] == [v[2], v[3]] + v[4..];
    assert v[4..] == [v[4], v[5]] + v[6..] && v[6..] == [v[6], v[7]] + [];
    FirstOfPrefix(v[0], v[1], v[2..]);
    FirstOfPrefix(v[2], v[3], v[4..]);
    FirstOfPrefix(v[4], v[5], v[6..]);
    FirstOfPrefix(v[6], v[7], []);
  }

  /** The key a request gives itself: customer id, e-mail, WhatsApp id, phone, order, invoice, case, message. */
  lemma SyntheticKeyByPreference(q: Request)
    ensures FirstPresent(SyntheticKey(q),
      [Keyed("candidate:prestashop", q.idCustomer), Keyed("candidate:email", q.email),
       Keyed("candidate:wa_id", q.waId), Keyed("candidate:phone", q.phone), Keyed("candidate:order", q.idOrder),
       Keyed("candidate:invoice", q.invoiceNumber), Keyed("candidate:case", q.caseId),
       Keyed("candidate:message", q.messageId)])
  {
    var choices := [Keyed("candidate:prestashop", q.idCustomer), Keyed("candidate:email", q.email),
       Keyed("candidate:wa_id", q.waId), Keyed("candidate:phone", q.phone), Keyed("candidate:order", q.idOrder),
       Keyed("candidate:invoice", q.invoiceNumber), Keyed("candidate:case", q.caseId),
       Keyed("candidate:message", q.messageId)];
    FirstOfEight(choices);
    FirstOfIsFirst(choices);
  }

  /** A request that names neither a customer, nor an order or invoice, nor an e-mail. */
  predicate PhoneOnly(q: Request) {
    q.email.None? && q.idCustomer.None? && q.idOrder.None? && q.invoiceNumber.None?
  }

  /** The types of identity a request can have, the one it is known by first. */
  const REQUESTED_FIRST: seq<IdentityType> := [Email, PrestashopCustomerId, OrderId, InvoiceNumber, Phone, WaId]

  /** The identity is the first one the request has. */
  ghost predicate FirstIdentity(q: Request, t: IdentityType, value: Option<string>) {
    exists i :: 0 <= i < |REQUESTED_FIRST| && t == REQUESTED_FIRST[i] && value == Requested(q, t) && value.Some?
                && forall j :: 0 <= j < i ==> Requested(q, REQUESTED_FIRST[j]).None?
  }

  lemma IdentityByPreference(q: Request)
    ensures var identity := SyntheticIdentity(q);
      if identity.None? then PhoneOnly(q) && q.phone.None? && q.waId.None?
      else FirstIdentity(q, identity.value.0, Some(identity.value.1))
  {
    var i := if q.email.Some? then 0 else if q.idCustomer.Some? then 1 else if q.idOrder.Some? then 2
             else if q.invoiceNumber.Some? then 3 else if q.phone.Some? then 4 else 5;
    if SyntheticIdentity(q).Some? {
      assert SyntheticIdentity(q).value.0 == REQUESTED_FIRST[i];
    }
  }

  lemma RecordByPreference(q: Request)
    ensures SyntheticObservation(q).Some? ==>
      FirstPresent(SyntheticObservation(q).value.sourceRecordId,
                   [q.messageId, q.caseId, q.idCustomer, q.idOrder, q.invoiceNumber, q.waId, q.email, q.phone])
  {
    var records := [q.messageId, q.caseId, q.idCustomer, q.idOrder, q.invoiceNumber, q.waId, q.email, q.phone];
    FirstOfEight(records);
    FirstOfIsFirst(records);
  }

  lemma SomeKeyOfIdentity(q: Request)
    requires SyntheticIdentity(q).Some?
    ensures SyntheticKey(q).Some?
  {
  }

  /**
   The observation made of the request: there is one as soon as the request names an identity, the
   e-mail address before the customer id, order, invoice, phone and WhatsApp id; only the last two
   leave it uncertain.
   */
  lemma SyntheticByPreference(q: Request)
    ensures var o := SyntheticObservation(q);
      && (o.None? <==> PhoneOnly(q) && q.phone.None? && q.waId.None?)
      && (o.Some? ==>
            && o.value.source == Unknown && o.value.table == "customer_candidate_input"
            && o.value.identityType.Some? && o.value.matchedBy == TypeName(o.value.identityType.value)
            && FirstIdentity(q, o.value.identityType.value, o.value.identityValue)
            && (o.value.confidence == if PhoneOnly(q) then Medium else High)
            && o.value.customerKey == SyntheticKey(q)
            && FirstPresent(o.value.sourceRecordId,
                            [q.messageId, q.caseId, q.idCustomer, q.idOrder, q.invoiceNumber, q.waId, q.email,
                             q.phone]))
  {
    RecordByPreference(q);
    IdentityByPreference(q);
    if SyntheticIdentity(q).Some? {
      SomeKeyOfIdentity(q);
    }
  }

  // ----- what every observation has in common

  /** The request's own value of an identity type; rows can only contribute phones and WhatsApp ids of their own. */
  function Requested(q: Request, t: IdentityType): Option<string> {
    match t
    case CustomerMasterId | PrestashopCustomerId => q.idCustomer
    case Email => q.email
    case OrderId => q.idOrder
    case InvoiceNumber => q.invoiceNumber
    case Phone => q.phone
    case WaId => q.waId
    case Rut | AppsheetCustomerId => None
  }

  predicate VouchedType(q: Request, source: Source, t: IdentityType, value: Option<string>, confidence: Confidence) {
    && value.Some? && t !in {Rut, AppsheetCustomerId}
    && (value == Requested(q, t) || (t == Phone && value == q.waId))
    && (t in {Phone, WaId} ==> confidence != High)
    && (source != Unknown ==> (confidence == High <==> source in {Prestashop, Mariadb} && IsStrongType(t)))
  }

  predicate VouchedIdentity(q: Request, source: Source, t: Option<IdentityType>, value: Option<string>,
                            confidence: Confidence)
  {
    if t.Some? then VouchedType(q, source, t.value, value, confidence) else value.None? && confidence != High
  }

  /** Identities are the request's own, and for a reader source and type decide whether it is certain. */
  predicate Vouched(q: Request, o: Observation) {
    VouchedIdentity(q, o.source, o.identityType, o.identityValue, o.confidence)
  }

  predicate VouchedMatch(q: Request, source: Source, m: Option<Match>) {
    m.Some? ==> VouchedIdentity(q, source, m.value.identityType, m.value.value, m.value.confidence)
  }

  lemma HighMatchesAreVouched(q: Request, row: Row)
    ensures VouchedMatch(q, Mariadb, MatchMaster(q, row)) && VouchedMatch(q, Prestashop, MatchCustomer(q, row))
    ensures VouchedMatch(q, Prestashop, MatchOrder(q, row))
  {
  }

  lemma AddressMatchIsVouched(q: Request, row: Row)
    ensures VouchedMatch(q, Prestashop, MatchAddress(q, row))
  {
  }

  lemma LegacyIdentityIsVouched(q: Request, row: Row, otherwise: (Option<IdentityType>, Option<string>), c: Confidence)
    requires c != High && VouchedIdentity(q, N8n, otherwise.0, otherwise.1, c)
    ensures var r := LegacyIdentity(q, row, otherwise); VouchedIdentity(q, N8n, r.0, r.1, c)
    ensures var r := PhoneIdentity(q, row, otherwise); VouchedIdentity(q, N8n, r.0, r.1, c)
  {
  }

  lemma LegacyMatchesAreVouched(q: Request, row: Row)
    ensures VouchedMatch(q, N8n, MatchCase(q, row)) && VouchedMatch(q, N8n, MatchInbound(q, row))
  {
    forall c | c in {Medium, Low}
      ensures var r := LegacyIdentity(q, row, PhoneIdentity(q, row, (None, None))); VouchedIdentity(q, N8n, r.0, r.1, c)
      ensures var r := PhoneIdentity(q, row, LegacyIdentity(q, row, (None, None))); VouchedIdentity(q, N8n, r.0, r.1, c)
    {
      LegacyIdentityIsVouched(q, row, (None, None), c);
      LegacyIdentityIsVouched(q, row, PhoneIdentity(q, row, (None, None)), c);
      LegacyIdentityIsVouched(q, row, LegacyIdentity(q, row, (None, None)), c);
    }
  }

  lemma MatchIsVouched(t: Table, q: Request, row: Row)
    ensures VouchedMatch(q, SourceOf(t), MatchOf(t, q, row))
  {
    match t
    case MasterCustomer => HighMatchesAreVouched(q, row);
    case PsCustomer => HighMatchesAreVouched(q, row);
    case PsAddress => AddressMatchIsVouched(q, row);
    case PsOrders => HighMatchesAreVouched(q, row);
    case Cases => LegacyMatchesAreVouched(q, row);
    case InboundMessages => LegacyMatchesAreVouched(q, row);
    case ConversationMessages => LegacyMatchesAreVouched(q, row);
  }

  lemma {:induction false} ObservedContents(t: Table, q: Request, rows: seq<Row>)
    ensures forall o :: o in Observed(t, q, rows) <==> exists row <- rows :: Observe(t, q, row) == Some(o)
  {
    if rows != [] {
      SplitLast(rows);
      ObservedContents(t, q, rows[..|rows| - 1]);
      assert forall row :: row in rows <==> row in rows[..|rows| - 1] || row == rows[|rows| - 1];
    }
  }

  /** What is read is what is observed in some row of some table. */
  lemma ReadContents(q: Request, rows: Table -> seq<Row>)
    ensures forall o :: o in Read(q, rows) <==> exists t, row :: row in rows(t) && Observe(t, q, row) == Some(o)
  {
    forall t: Table
      ensures forall o :: o in Observed(t, q, rows(t)) <==> exists row <- rows(t) :: Observe(t, q, row) == Some(o)
    {
      ObservedContents(t, q, rows(t));
    }
    forall o: Observation
      ensures o in Read(q, rows) <==> exists t :: o in Observed(t, q, rows(t))
    {
      if t :| o in Observed(t, q, rows(t)) {
        InRead(q, rows, t, o);
      }
    }
  }

  lemma InRead(q: Request, rows: Table -> seq<Row>, t: Table, o: Observation)
    requires o in Observed(t, q, rows(t))
    ensures o in Read(q, rows)
  {
  }

  lemma SyntheticIsVouched(q: Request)
    ensures SyntheticObservation(q).Some? ==> Vouched(q, SyntheticObservation(q).value)
  {
  }

  // ----- equal keys

  /** The part of a key that a bar ends can be read off. */
  lemma SplitAtBar(a: string, rest: string, b: string, rest': string)
    requires '|' !in a && '|' !in b && a + "|" + rest == b + "|" + rest'
    ensures a == b && rest == rest'
  {
    var s := a + "|" + rest;
    assert s[|a|] == '|' && s[|b|] == '|';
    assert forall i :: 0 <= i < |a| ==> s[i] == a[i] && a[i] in a;
    assert forall i :: 0 <= i < |b| ==> s[i] == b[i] && b[i] in b;
    assert s[..|a|] == a && s[..|b|] == b;
    assert s[|a| + 1..] == rest && s[|b| + 1..] == rest';
  }

  lemma JoinFirst(first: string, more: seq<string>)
    requires more != []
    ensures Join([first] + more, "|") == first + "|" + Join(more, "|")
  {
  }

  function IdentityName(t: Option<IdentityType>): string {
    if t.Some? then TypeName(t.value) else ""
  }

  /** What follows the record id in a key. */
  function KeyTail(o: Observation): string {
    o.matchedBy + "|"
    + (IdentityName(o.identityType) + "|" + (o.identityValue.GetOr("") + "|" + o.customerKey.GetOr("")))
  }

  lemma KeyParts(o: Observation)
    ensures ObservationKey(o)
      == SourceName(o.source) + "|" + (o.table + "|" + (o.sourceRecordId.GetOr("") + "|" + KeyTail(o)))
  {
    var typeName := IdentityName(o.identityType);
    var value, key := o.identityValue.GetOr(""), o.customerKey.GetOr("");
    JoinFirst(value, [key]);
    JoinFirst(typeName, [value, key]);
    JoinFirst(o.matchedBy, [typeName, value, key]);
    JoinFirst(o.sourceRecordId.GetOr(""), [o.matchedBy, typeName, value, key]);
    JoinFirst(o.table, [o.sourceRecordId.GetOr(""), o.matchedBy, typeName, value, key]);
    JoinFirst(SourceName(o.source), [o.table, o.sourceRecordId.GetOr(""), o.matchedBy, typeName, value, key]);
  }

  lemma SourceNameHasNoBar(source: Source)
    ensures '|' !in SourceName(source)
  {
  }

  lemma TypeNameHasNoBar(t: IdentityType)
    ensures '|' !in TypeName(t)
  {
  }

  lemma TableNameHasNoBar(t: Table)
    ensures '|' !in TableName(t)
  {
  }

  lemma CriterionNameHasNoBar(c: Criterion)
    ensures '|' !in CriterionName(c)
  {
  }

  /** Length and first character tell the source names apart. */
  lemma SourceMark(s: Source)
    ensures var name := SourceName(s);
      (|name|, name[0]) == match s
        case Brain => (5, 'b')
        case Whatsapp => (8, 'w')
        case N8n => (3, 'n')
        case Prestashop => (10, 'p')
        case Mariadb => (7, 'm')
        case Appsheet => (8, 'a')
        case HubOperator => (12, 'h')
        case Import => (6, 'i')
        case Unknown => (7, 'u')
  {
  }

  lemma TypeMark(t: IdentityType)
    ensures var name := TypeName(t);
      (|name|, name[0]) == match t
        case CustomerMasterId => (18, 'c')
        case Email => (5, 'e')
        case WaId => (5, 'w')
        case Phone => (5, 'p')
        case PrestashopCustomerId => (22, 'p')
        case OrderId => (8, 'o')
        case InvoiceNumber => (14, 'i')
        case Rut => (3, 'r')
        case AppsheetCustomerId => (20, 'a')
  {
  }

  /** Phones and WhatsApp ids are digits. */
  predicate NormalRequest(q: Request) {
    && (q.phone.Some? ==> '|' !in q.phone.value)
    && (q.waId.Some? ==> '|' !in q.waId.value)
  }

  /**
   Normalising gives such a request, and the address reader's four tests, with their candidate
   lists, come to the two comparisons in `MatchAddress`.
   */
  lemma NormalizedRequest(q: Request, row: Row, phone: string, waId: string, rowText: string)
    requires q.phone == Phones.NormalizePhone(phone) && q.waId == Phones.NormalizeWaId(waId)
    requires row.phone == Phones.NormalizePhone(rowText)
    ensures NormalRequest(q)
    ensures Same(q.phone, row.phone) || Same(q.waId, row.phone)
      <==> row.phone.Some? && (Phones.NormalizePhone(phone) == row.phone || Phones.NormalizePhone(waId) == row.phone)
  {
    Phones.NormalizeIsIdempotent(phone);
    Phones.NormalizeIsIdempotent(waId);
    if row.phone.Some? {
      Phones.NormalizeIsIdempotent(rowText);
      Phones.CandidatesInNormalForm(waId, row.phone.value);
    }
  }

  /** An observation that a reader of request `q` can make, or the one made of `q` itself. */
  predicate Reading(q: Request, o: Observation) {
    if o.source == Unknown then SyntheticObservation(q) == Some(o)
    else Vouched(q, o) && '|' !in o.table && '|' !in o.matchedBy && o.customerKey != Some("")
  }

  lemma ObserveIsReading(t: Table, q: Request, row: Row)
    ensures Observe(t, q, row).Some? ==> Reading(q, Observe(t, q, row).value)
  {
    TableNameHasNoBar(t);
    MatchIsVouched(t, q, row);
    if m :| MatchOf(t, q, row) == Some(m) {
      CriterionNameHasNoBar(m.matchedBy);
    }
    CustomerKeyIsNotEmpty(t, q, row);
  }

  lemma CustomerKeyIsNotEmpty(t: Table, q: Request, row: Row)
    ensures CustomerKey(t, q, row) != Some("")
  {
  }

  /** Alike in everything but the id of the record, absent or empty, and in degrees of uncertainty. */
  ghost predicate Alike(a: Observation, b: Observation) {
    && a.source == b.source && a.table == b.table && a.sourceRecordId.GetOr("") == b.sourceRecordId.GetOr("")
    && a.matchedBy == b.matchedBy && a.identityType == b.identityType && a.identityValue == b.identityValue
    && a.customerKey == b.customerKey && (a.confidence == High <==> b.confidence == High)
  }

  /** Values of one type are equal, or both are phones, which hold no bar. */
  lemma ValuesOfOneType(q: Request, a: Observation, b: Observation)
    requires NormalRequest(q) && Vouched(q, a) && Vouched(q, b) && a.identityType == b.identityType
    ensures a.identityValue.Some? <==> b.identityValue.Some?
    ensures a.identityValue == b.identityValue
      || ('|' !in a.identityValue.GetOr("") && '|' !in b.identityValue.GetOr(""))
  {
  }

  lemma SameRest(a: string, rest: string, b: string, rest': string)
    requires a == b || ('|' !in a && '|' !in b)
    requires a + "|" + rest == b + "|" + rest'
    ensures a == b && rest == rest'
  {
    if a == b {
      var s := a + "|" + rest;
      assert s[|a| + 1..] == rest && s[|a| + 1..] == rest';
    } else {
      SplitAtBar(a, rest, b, rest');
    }
  }

  lemma TailsAreAlike(q: Request, a: Observation, b: Observation)
    requires NormalRequest(q) && Vouched(q, a) && Vouched(q, b) && '|' !in a.matchedBy && '|' !in b.matchedBy
    requires KeyTail(a) == KeyTail(b)
    ensures a.matchedBy == b.matchedBy && a.identityType == b.identityType && a.identityValue == b.identityValue
    ensures a.customerKey.GetOr("") == b.customerKey.GetOr("")
  {
    var ra := a.identityValue.GetOr("") + "|" + a.customerKey.GetOr("");
    var rb := b.identityValue.GetOr("") + "|" + b.customerKey.GetOr("");
    IdentityNamesDiffer(a.identityType, b.identityType);
    IdentityNamesDiffer(b.identityType, a.identityType);
    var na, nb := IdentityName(a.identityType), IdentityName(b.identityType);
    SplitAtBar(a.matchedBy, na + "|" + ra, b.matchedBy, nb + "|" + rb);
    SplitAtBar(na, ra, nb, rb);
    ValuesOfOneType(q, a, b);
    SameRest(a.identityValue.GetOr(""), a.customerKey.GetOr(""), b.identityValue.GetOr(""), b.customerKey.GetOr(""));
  }

  lemma IdentityNamesDiffer(t: Option<IdentityType>, t': Option<IdentityType>)
    ensures '|' !in IdentityName(t)
    ensures IdentityName(t) == IdentityName(t') ==> t == t'
  {
    if t.Some? {
      TypeNameHasNoBar(t.value);
      TypeMark(t.value);
    }
    if t'.Some? {
      TypeMark(t'.value);
    }
  }

  predicate PlainRecord(o: Observation) {
    o.source != Unknown ==> '|' !in o.sourceRecordId.GetOr("")
  }

  /** Readings with equal keys are alike, if no record id holds the bar that keys are joined with. */
  lemma EqualKeysAreAlike(q: Request, a: Observation, b: Observation)
    requires NormalRequest(q) && Reading(q, a) && Reading(q, b) && PlainRecord(a) && PlainRecord(b)
    requires ObservationKey(a) == ObservationKey(b)
    ensures Alike(a, b)
  {
    var ra, rb := a.sourceRecordId.GetOr("") + "|" + KeyTail(a), b.sourceRecordId.GetOr("") + "|" + KeyTail(b);
    KeyParts(a);
    KeyParts(b);
    SourceNameHasNoBar(a.source);
    SourceNameHasNoBar(b.source);
    SplitAtBar(SourceName(a.source), a.table + "|" + ra, SourceName(b.source), b.table + "|" + rb);
    SourceMark(a.source);
    SourceMark(b.source);
    if a.source != Unknown {
      SplitAtBar(a.table, ra, b.table, rb);
      SplitAtBar(a.sourceRecordId.GetOr(""), KeyTail(a), b.sourceRecordId.GetOr(""), KeyTail(b));
      TailsAreAlike(q, a, b);
    }
  }
}
