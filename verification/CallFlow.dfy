/** The call panel: one call session runs from room-number entry through
    the outcome and order questions to the menu, and every session that
    completes produces exactly one call record and returns to room entry.

    The handlers are modelled as written: none of them looks at the current
    step.  Which handler the operator can reach in which step is decided by
    what the panel renders, and that is `Available`; `Dispatch` is the panel
    as the operator sees it. */
module CallFlow {
  import opened Text
  import opened Types
  import opened CartOps

  datatype Step = Input | Outcome | OrderCheck | MenuSelection

  /** The panel's state.  `currentOutcome` is recorded by the outcome
      handler and cleared on reset; the record itself takes the outcome
      from the handler's argument. */
  datatype Session = Session(
    step: Step,
    roomNumber: string,
    currentOutcome: Option<CallOutcome>,
    cart: Cart)

  /** The state the panel starts in, and the state `resetFlow` returns to. */
  const Initial: Session := Session(Input, "", None, [])

  /** A record as every completing handler builds it: the id is the clock
      reading in decimal, the timestamp is the clock reading, and the
      attempt number is always 1. */
  function NewRecord(roomNumber: string, now: nat, outcome: CallOutcome, status: OrderStatus,
                     items: seq<OrderItem>, total: nat): CallRecord
  {
    CallRecord(DecimalString(now), roomNumber, now, 1, outcome, status, items, total)
  }

  /** Typing into the room-number field. */
  function EditRoomNumber(s: Session, text: string): (r: Session)
    ensures r.roomNumber == text && r.step == s.step && r.cart == s.cart
  {
    s.(roomNumber := text)
  }

  /** "Initiate Call": a room number made only of white space (or empty)
      leaves the panel where it is; any other moves on to the outcome
      question, keeping the room number exactly as typed. */
  function HandleCallAttempt(s: Session): (r: Session)
    ensures AllSpace(s.roomNumber) ==> r == s
    ensures !AllSpace(s.roomNumber) ==> r == s.(step := Outcome)
  {
    BlankIffAllSpace(s.roomNumber);
    if IsBlank(s.roomNumber) then s else s.(step := Outcome)
  }

  /** An outcome button.  `Picked` only advances to the order question and
      emits nothing; a missed outcome immediately emits one `NoResponse`
      record with no lines and a zero total, and resets the panel. */
  function HandleOutcome(s: Session, outcome: CallOutcome, now: nat): (r: (Session, Option<CallRecord>))
    ensures outcome == Picked ==>
      r.1 == None && r.0 == s.(step := OrderCheck, currentOutcome := Some(Picked))
    ensures outcome != Picked ==>
      r.0 == Initial && r.1.Some? &&
      r.1.value.outcome == outcome && r.1.value.orderStatus == NoResponse &&
      r.1.value.orderedItems == [] && r.1.value.totalAmount == 0 &&
      r.1.value.callAttempt == 1 && r.1.value.roomNumber == s.roomNumber &&
      r.1.value.timestamp == now && r.1.value.id == DecimalString(now)
  {
    if outcome == Picked then
      (s.(currentOutcome := Some(outcome), step := OrderCheck), None)
    else
      (Initial, Some(NewRecord(s.roomNumber, now, outcome, NoResponse, [], 0)))
  }

  /** The order question.  "Yes" only advances to the menu; "No" emits one
      answered-but-not-ordered record with no lines and a zero total, and
      resets the panel. */
  function HandleOrderCheck(s: Session, ordered: bool, now: nat): (r: (Session, Option<CallRecord>))
    ensures ordered ==> r.1 == None && r.0 == s.(step := MenuSelection)
    ensures !ordered ==>
      r.0 == Initial && r.1.Some? &&
      r.1.value.outcome == Picked && r.1.value.orderStatus == NotOrdered &&
      r.1.value.orderedItems == [] && r.1.value.totalAmount == 0 &&
      r.1.value.callAttempt == 1 && r.1.value.roomNumber == s.roomNumber &&
      r.1.value.timestamp == now && r.1.value.id == DecimalString(now)
  {
    if ordered then (s.(step := MenuSelection), None)
    else (Initial, Some(NewRecord(s.roomNumber, now, Picked, NotOrdered, [], 0)))
  }

  /** "Save Order": emits one ordered record carrying the cart as its lines
      and the cart's price-times-quantity sum as its total, and resets the
      panel.  The handler itself does not look at the cart's size. */
  function SubmitOrder(s: Session, now: nat): (r: (Session, Option<CallRecord>))
    ensures r.0 == Initial && r.1.Some?
    ensures r.1.value.outcome == Picked && r.1.value.orderStatus == Ordered
    ensures r.1.value.orderedItems == s.cart && r.1.value.roomNumber == s.roomNumber
    ensures r.1.value.totalAmount == LinesTotal(s.cart) && r.1.value.timestamp == now
    ensures r.1.value.callAttempt == 1 && r.1.value.id == DecimalString(now)
  {
    (Initial, Some(NewRecord(s.roomNumber, now, Picked, Ordered, s.cart, LinesTotal(s.cart))))
  }

  /** What the operator can do on the panel. */
  datatype Action =
    | EditRoom(text: string)
    | CallAttempt
    | ChooseOutcome(outcome: CallOutcome)
    | AnswerOrderCheck(ordered: bool)
    | AddItem(item: MenuItem)
    | RemoveItem(id: string)
    | Submit
    | Cancel

  /** Whether the panel offers the action in this state: each step renders
      only its own controls; "Initiate Call" is disabled while the field is
      empty; a remove button exists only for a line in the cart; "Save
      Order" is disabled on an empty cart; "Cancel" exists only next to the
      cart. */
  predicate Available(s: Session, a: Action) {
    match a
    case EditRoom(_) => s.step == Input
    case CallAttempt => s.step == Input && s.roomNumber != ""
    case ChooseOutcome(_) => s.step == Outcome
    case AnswerOrderCheck(_) => s.step == OrderCheck
    case AddItem(_) => s.step == MenuSelection
    case RemoveItem(id) => s.step == MenuSelection && id in Ids(s.cart)
    case Submit => s.step == MenuSelection && s.cart != []
    case Cancel => s.step == MenuSelection
  }

  /** The actions that end a session with a record. */
  predicate Completes(a: Action) {
    || (a.ChooseOutcome? && a.outcome != Picked)
    || (a.AnswerOrderCheck? && !a.ordered)
    || a.Submit?
  }

  /** One operator action on the panel.  An action the panel does not offer
      changes nothing.  A record is emitted exactly when an offered action
      completes the session, and then the panel is back at room entry and
      the record carries the session's room number, the clock reading, the
      clock reading in decimal as its id, and attempt number 1.  An offered
      action that does not complete the session changes only what its
      control is for; "Cancel" returns to room entry. */
  function Dispatch(s: Session, a: Action, now: nat): (r: (Session, Option<CallRecord>))
    ensures !Available(s, a) ==> r == (s, None)
    ensures r.1.Some? <==> Available(s, a) && Completes(a)
    ensures r.1.Some? ==>
      && r.0 == Initial && r.1.value.roomNumber == s.roomNumber && r.1.value.timestamp == now
      && r.1.value.id == DecimalString(now) && r.1.value.callAttempt == 1
    ensures Available(s, a) && a.EditRoom? ==> r == (s.(roomNumber := a.text), None)
    ensures Available(s, a) && a.CallAttempt? ==>
      r == (if AllSpace(s.roomNumber) then s else s.(step := Outcome), None)
    ensures Available(s, a) && a == ChooseOutcome(Picked) ==>
      r == (s.(step := OrderCheck, currentOutcome := Some(Picked)), None)
    ensures Available(s, a) && a == AnswerOrderCheck(true) ==> r == (s.(step := MenuSelection), None)
    ensures Available(s, a) && a.AddItem? ==> r == (s.(cart := AddToCart(s.cart, a.item)), None)
    ensures Available(s, a) && a.RemoveItem? ==> r == (s.(cart := RemoveFromCart(s.cart, a.id)), None)
    ensures Available(s, a) && a.Cancel? ==> r == (Initial, None)
  {
    if !Available(s, a) then (s, None)
    else
      match a
      case EditRoom(text) => (EditRoomNumber(s, text), None)
      case CallAttempt => (HandleCallAttempt(s), None)
      case ChooseOutcome(o) => HandleOutcome(s, o, now)
      case AnswerOrderCheck(b) => HandleOrderCheck(s, b, now)
      case AddItem(item) => (s.(cart := AddToCart(s.cart, item)), None)
      case RemoveItem(id) => (s.(cart := RemoveFromCart(s.cart, id)), None)
      case Submit => SubmitOrder(s, now)
      case Cancel => (Initial, None)
  }

  /** What holds in every state the panel can reach: the cart is
      well-formed and non-empty only on the menu step; past room entry the
      room number is not blank; the outcome is remembered (as `Picked`)
      exactly on the order and menu steps. */
  predicate Inv(s: Session) {
    && WellFormedCart(s.cart)
    && (s.step != Input ==> !IsBlank(s.roomNumber))
    && (s.step != MenuSelection ==> s.cart == [])
    && (s.step == Input || s.step == Outcome <==> s.currentOutcome == None)
    && (s.currentOutcome == None || s.currentOutcome == Some(Picked))
  }

  /** Every action keeps the invariant (an action the panel does not offer
      changes nothing). */
  lemma DispatchPreservesInv(s: Session, a: Action, now: nat)
    requires Inv(s)
    ensures Inv(Dispatch(s, a, now).0)
  {
    if Available(s, a) {
      match a
      case EditRoom(text) =>
      case CallAttempt =>
        CallAttemptKeepsInv(s);
      case ChooseOutcome(o) =>
        OutcomeKeepsInv(s, o, now);
      case AnswerOrderCheck(b) =>
        OrderCheckKeepsInv(s, b, now);
      case AddItem(item) =>
        AddItemKeepsInv(s, item);
      case RemoveItem(id) =>
        RemoveItemKeepsInv(s, id);
      case Submit =>
        InitialInv();
      case Cancel =>
        InitialInv();
    }
  }

  lemma InitialInv()
    ensures Inv(Initial)
  {
    assert Initial.cart == [];
  }

  lemma CallAttemptKeepsInv(s: Session)
    requires Inv(s) && s.step == Input
    ensures Inv(HandleCallAttempt(s))
  {
    BlankIffAllSpace(s.roomNumber);
  }

  lemma OutcomeKeepsInv(s: Session, o: CallOutcome, now: nat)
    requires Inv(s) && s.step == Outcome
    ensures Inv(HandleOutcome(s, o, now).0)
  {
    if o != Picked {
      InitialInv();
    }
  }

  lemma OrderCheckKeepsInv(s: Session, ordered: bool, now: nat)
    requires Inv(s) && s.step == OrderCheck
    ensures Inv(HandleOrderCheck(s, ordered, now).0)
  {
    if !ordered {
      InitialInv();
    }
  }

  lemma AddItemKeepsInv(s: Session, item: MenuItem)
    requires Inv(s) && s.step == MenuSelection
    ensures Inv(s.(cart := AddToCart(s.cart, item)))
  {
  }

  lemma RemoveItemKeepsInv(s: Session, id: string)
    requires Inv(s) && s.step == MenuSelection
    ensures Inv(s.(cart := RemoveFromCart(s.cart, id)))
  {
    RemoveKeepsWellFormed(s.cart, id);
  }

  /** A record built from a non-blank room number whose total matches its
      well-formed lines, with lines exactly when ordered and `NoResponse`
      exactly when missed, is consistent. */
  lemma NewRecordValid(room: string, now: nat, outcome: CallOutcome, status: OrderStatus,
                       items: seq<OrderItem>, total: nat)
    requires !IsBlank(room) && WellFormedCart(items) && total == LinesTotal(items)
    requires items != [] <==> status == Ordered
    requires status == NoResponse <==> outcome != Picked
    ensures ValidRecord(NewRecord(room, now, outcome, status, items, total))
  {
  }

  /** Every record the panel emits from a reachable state is consistent:
      its total matches its lines, it has lines exactly when ordered, and
      it is `NoResponse` exactly when the call was missed. */
  lemma EmittedRecordValid(s: Session, a: Action, now: nat)
    requires Inv(s)
    requires Dispatch(s, a, now).1.Some?
    ensures ValidRecord(Dispatch(s, a, now).1.value)
  {
    var rec := Dispatch(s, a, now).1.value;
    assert Available(s, a) && Completes(a);
    if a.ChooseOutcome? {
      assert rec == NewRecord(s.roomNumber, now, a.outcome, NoResponse, [], 0);
      NewRecordValid(s.roomNumber, now, a.outcome, NoResponse, [], 0);
    } else if a.AnswerOrderCheck? {
      assert rec == NewRecord(s.roomNumber, now, Picked, NotOrdered, [], 0);
      NewRecordValid(s.roomNumber, now, Picked, NotOrdered, [], 0);
    } else {
      assert rec == NewRecord(s.roomNumber, now, Picked, Ordered, s.cart, LinesTotal(s.cart));
      NewRecordValid(s.roomNumber, now, Picked, Ordered, s.cart, LinesTotal(s.cart));
    }
  }

  /** Called directly, the submit handler yields a consistent record exactly
      when the cart is not empty; on an empty cart it would record an
      `Ordered` call with no lines, which is why the panel disables it. */
  lemma SubmitValidIffNonEmpty(s: Session, now: nat)
    requires WellFormedCart(s.cart) && !IsBlank(s.roomNumber)
    ensures ValidRecord(SubmitOrder(s, now).1.value) <==> s.cart != []
  {
  }

  /** Two records emitted by the panel share an id exactly when they were
      made at the same clock reading, whatever the sessions and actions;
      and the id reads back as that clock reading. */
  lemma EmittedIdsDistinct(s1: Session, a1: Action, now1: nat, s2: Session, a2: Action, now2: nat)
    requires Dispatch(s1, a1, now1).1.Some? && Dispatch(s2, a2, now2).1.Some?
    ensures DecimalValue(Dispatch(s1, a1, now1).1.value.id) == now1
    ensures Dispatch(s1, a1, now1).1.value.id == Dispatch(s2, a2, now2).1.value.id <==> now1 == now2
  {
    DecimalRoundTrip(now1);
    DecimalStringInjective(now1, now2);
  }
}
