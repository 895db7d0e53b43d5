/** The records of the purchases app: courses, profiles and transactions. */
module Models {
  import opened Wrappers

  type CourseId = nat
  type UserId = nat
  type TxnId = nat

  /** A course; the price is a whole number of paise and can never be negative. */
  datatype Course = Course(title: string, description: string, priceInPaise: nat, isActive: bool)

  /** The three statuses a transaction may carry. */
  datatype Status = Created | Paid | Failed

  /** The choice list of the status column: stored value and label, in declaration order. */
  const StatusChoices: seq<(string, string)> :=
    [("created", "Created"), ("paid", "Paid"), ("failed", "Failed")]

  /** The value a status is stored as. */
  function StatusValue(s: Status): (v: string)
    ensures exists i :: 0 <= i < |StatusChoices| && StatusChoices[i].0 == v
  {
    match s
    case Created => assert StatusChoices[0].0 == "created"; "created"
    case Paid => assert StatusChoices[1].0 == "paid"; "paid"
    case Failed => assert StatusChoices[2].0 == "failed"; "failed"
  }

  /** Reads a stored status value back; only the values of the choice list are accepted. */
  function ParseStatus(v: string): (r: Option<Status>)
    ensures r.Some? <==> exists i :: 0 <= i < |StatusChoices| && StatusChoices[i].0 == v
  {
    if v == StatusChoices[0].0 then Some(Created)
    else if v == StatusChoices[1].0 then Some(Paid)
    else if v == StatusChoices[2].0 then Some(Failed)
    else None
  }

  /** Reading back the value a status is stored as gives that status. */
  lemma StatusRoundTrip(s: Status)
    ensures ParseStatus(StatusValue(s)) == Some(s)
  {
  }

  /** A purchase attempt of one course by one user. */
  datatype Transaction = Transaction(
    user: UserId,
    course: CourseId,
    amountInPaise: nat,
    status: Status,
    orderId: string,
    paymentId: string,
    signature: string)

  /** The status a new transaction gets when none is given. */
  const DefaultStatus: Status := Created

  /** The default status is stored as "created"; the callback's outcomes as "paid" and "failed". */
  lemma StoredStatusValues()
    ensures StatusValue(DefaultStatus) == "created"
    ensures StatusValue(Paid) == "paid" && StatusValue(Failed) == "failed"
  {
  }

  /** A freshly created transaction: the default status and blank gateway fields. */
  function NewTransaction(user: UserId, course: CourseId, amountInPaise: nat): (t: Transaction)
    ensures t.user == user && t.course == course && t.amountInPaise == amountInPaise
    ensures t.status == DefaultStatus
    ensures t.orderId == "" && t.paymentId == "" && t.signature == ""
  {
    Transaction(user, course, amountInPaise, DefaultStatus, "", "", "")
  }
}
