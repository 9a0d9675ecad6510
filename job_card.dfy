/** One job card (src/components/JobCard.tsx): the `Job` record every page shares,
    the status badge and the summary the card shows. */
module JobCard {
  import opened Wrappers
  import CircularProgress

  /** A job row as the store returns it. `created_at` is the store's timestamp,
      kept here as an abstract ordered value; `status` is an open-ended string. */
  datatype Job = Job(
    id: int,
    title: string,
    company: string,
    description: Option<string>,
    link: Option<string>,
    score: int,
    reasoning: Option<string>,
    benefits: Option<seq<string>>,
    cover_letter: Option<string>,
    status: string,
    created_at: int)

  /** The badge styles a status can get. */
  datatype BadgeVariant = Default | Secondary | Destructive

  /** `getBadgeVariant`: total over every status string; anything but "applied"
      and "rejected" is styled like "new". */
  function BadgeVariantOf(status: string): (v: BadgeVariant)
    ensures v == Secondary <==> status == "applied"
    ensures v == Destructive <==> status == "rejected"
    ensures v == Default <==> status != "applied" && status != "rejected"
  {
    match status
    case "new" => Default
    case "applied" => Secondary
    case "rejected" => Destructive
    case _ => Default
  }

  /** What a card shows. */
  datatype CardView = CardView(
    title: string,
    company: string,
    badgeVariant: BadgeVariant,
    badgeText: string,
    indicator: CircularProgress.Indicator,
    description: Option<string>)

  function RenderCard(job: Job): (v: CardView)
    ensures v.badgeText == job.status
    ensures v.badgeVariant == BadgeVariantOf(job.status)
    ensures v.indicator.number == job.score
    ensures v.indicator.stroke == CircularProgress.StrokeClass(CircularProgress.BandOf(job.score))
    ensures v.description.Some? <==> Truthy(job.description)
    ensures v.description.Some? ==> v.description == job.description
  {
    CardView(
      job.title,
      job.company,
      BadgeVariantOf(job.status),
      job.status,
      CircularProgress.Render(job.score),
      if Truthy(job.description) then job.description else None)
  }
}
