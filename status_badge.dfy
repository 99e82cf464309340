/** The coloured badge that shows a record's status
    (src/components/shared/status-badge.tsx). */
module StatusBadge {
  /** The badge variants the status table uses. */
  datatype Variant = Success | Warning | Default | Error

  /** The six statuses the table knows, keyed by their exact text. */
  const StatusVariants: map<string, Variant> := map[
    "active" := Success,
    "approved" := Success,
    "pending" := Warning,
    "inactive" := Default,
    "suspended" := Error,
    "rejected" := Error
  ]

  /** The variant for `status`; an unknown status shows the default badge. */
  function StatusVariant(status: string): (v: Variant)
    ensures v == Success <==> status == "active" || status == "approved"
    ensures v == Warning <==> status == "pending"
    ensures v == Error <==> status == "suspended" || status == "rejected"
    ensures v == Default <==> status !in {"active", "approved", "pending", "suspended", "rejected"}
  {
    if status in StatusVariants then StatusVariants[status] else Default
  }

  /** Unknown statuses and "inactive" look the same; statuses are matched exactly,
      so a capitalised status is unknown. */
  lemma UnknownLooksInactive(status: string)
    requires status !in StatusVariants
    ensures StatusVariant(status) == StatusVariant("inactive")
    ensures StatusVariant("Active") == Default
  {
  }
}
