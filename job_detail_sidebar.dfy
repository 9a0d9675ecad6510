/** The job detail panel (src/components/JobDetailSidebar.tsx): what it shows for
    a job, and its one piece of state, the `copied` flag of the copy button.
    Its two action buttons run the dashboard's callbacks, so they are modelled on
    `DashboardPage.Dashboard` (SidebarMarkAppliedClick, SidebarDeleteClick). */
module JobDetailSidebar {
  import opened Wrappers
  import opened Toasts
  import opened JobCard
  import CircularProgress

  const NoReasoning := "No AI reasoning provided."
  const CopiedNotice := Notice("Copied!", "Cover letter copied to clipboard")

  /** The "Mark as Applied" button is disabled for a job already applied to. */
  predicate MarkAppliedDisabled(job: Job)
  {
    job.status == "applied"
  }

  /** The verdict paragraph: the reasoning verbatim, or a fallback when there is none. */
  function VerdictText(reasoning: Option<string>): (t: string)
    ensures Truthy(reasoning) ==> t == reasoning.value
    ensures !Truthy(reasoning) ==> t == NoReasoning
    ensures t != ""
  {
    if Truthy(reasoning) then reasoning.value else NoReasoning
  }

  /** The benefit tags, when the section is shown at all: a non-null, non-empty list. */
  function BenefitTags(benefits: Option<seq<string>>): (tags: Option<seq<string>>)
    ensures tags.Some? <==> benefits.Some? && |benefits.value| > 0
    ensures tags.Some? ==> tags == benefits
  {
    if benefits.Some? && |benefits.value| > 0 then benefits else None
  }

  /** A `field && <section/>` guard: the section appears, with the field's text,
      only when the field is non-null and non-empty. */
  function Section(field: Option<string>): (shown: Option<string>)
    ensures shown.Some? <==> Truthy(field)
    ensures shown.Some? ==> shown == field
  {
    if Truthy(field) then field else None
  }

  /** What the panel shows for one job. */
  datatype DetailView = DetailView(
    title: string,
    company: string,
    indicator: CircularProgress.Indicator,
    link: Option<string>,
    verdict: string,
    benefits: Option<seq<string>>,
    description: Option<string>,
    coverLetter: Option<string>,
    copyLabel: string,
    markAppliedDisabled: bool)

  /** The panel renders nothing without a job; otherwise every section follows its guard. */
  function Render(job: Option<Job>, copied: bool): (view: Option<DetailView>)
    ensures view.None? <==> job.None?
    ensures view.Some? ==> (view.value.markAppliedDisabled <==> job.value.status == "applied")
    ensures view.Some? ==> view.value.indicator.number == job.value.score
    ensures view.Some? ==> view.value.verdict == VerdictText(job.value.reasoning)
    ensures view.Some? ==> (view.value.coverLetter.Some? <==> Truthy(job.value.cover_letter))
    ensures view.Some? ==> (view.value.benefits.Some? <==> job.value.benefits.Some? && |job.value.benefits.value| > 0)
    ensures view.Some? ==> (view.value.link.Some? <==> Truthy(job.value.link))
    ensures view.Some? ==> (view.value.description.Some? <==> Truthy(job.value.description))
    ensures view.Some? ==> view.value.title == job.value.title && view.value.company == job.value.company
    ensures view.Some? ==> view.value.link == Section(job.value.link)
    ensures view.Some? ==> view.value.description == Section(job.value.description)
    ensures view.Some? ==> view.value.coverLetter == Section(job.value.cover_letter)
    ensures view.Some? ==> view.value.benefits == BenefitTags(job.value.benefits)
    ensures view.Some? ==> view.value.copyLabel == (if copied then "Copied" else "Copy")
  {
    match job
    case None => None
    case Some(j) =>
      Some(DetailView(
        j.title,
        j.company,
        CircularProgress.Render(j.score),
        Section(j.link),
        VerdictText(j.reasoning),
        BenefitTags(j.benefits),
        Section(j.description),
        Section(j.cover_letter),
        if copied then "Copied" else "Copy",
        MarkAppliedDisabled(j)))
  }

  /** The panel component's own state. The timer that resets `copied` after two
      seconds is not modelled. */
  class Sidebar {
    var copied: bool

    constructor ()
      ensures !copied
    {
      copied := false;
    }

    /** `handleCopy`: with a non-empty cover letter, writes it to the clipboard
        (returned as `written`), sets `copied` and raises a notice; otherwise does nothing. */
    method HandleCopy(job: Option<Job>) returns (written: Option<string>, notice: Option<Notice>)
      modifies this
      ensures job.Some? && Truthy(job.value.cover_letter) ==>
        written == job.value.cover_letter && copied && notice == Some(CopiedNotice)
      ensures !(job.Some? && Truthy(job.value.cover_letter)) ==>
        written == None && copied == old(copied) && notice == None
    {
      if job.Some? && Truthy(job.value.cover_letter) {
        written := job.value.cover_letter;
        copied := true;
        notice := Some(CopiedNotice);
      } else {
        written, notice := None, None;
      }
    }
  }

  /** Whenever the panel shows the cover-letter section, its copy button acts. */
  lemma CopyButtonActs(job: Option<Job>, copied: bool)
    requires Render(job, copied).Some? && Render(job, copied).value.coverLetter.Some?
    ensures job.Some? && Truthy(job.value.cover_letter)
  {
  }
}
