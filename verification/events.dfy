/** Change events, as the parser hands them to the sink. */
module Events {
  import opened Values

  datatype Op = Insert | Update | Delete

  datatype ChangeEvent = ChangeEvent(
    op: Op,
    schema: string,
    table: string,
    before: Option<Dict>,
    after: Option<Dict>,
    lsn: nat,
    tsUs: int,
    commitLsn: nat)

  function OpLabel(op: Op): string {
    match op
    case Insert => "I"
    case Update => "U"
    case Delete => "D"
  }
}
