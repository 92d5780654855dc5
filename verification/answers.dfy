/** The form's three closed answer sets and the labels they are stored
    under (paginas/radar_saude_mental.py, lines 22-33). */
module Answers {
  import opened Wrappers

  /** "Progresso": the student's follow-up status. */
  datatype ProgressStatus = StillNeedsFollowUp | NewReferral | NoLongerNeedsFollowUp {
    function Label(): string {
      match this
      case StillNeedsFollowUp => "Segue necessitando de acompanhamento"
      case NewReferral => "Novo encaminhamento"
      case NoLongerNeedsFollowUp => "Não necessita mais de acompanhamento"
    }
  }

  /** "Ideação Suicida Identificada?": what, if anything, was identified. */
  datatype Ideation = NotIdentified | Thoughts | Planning | Attempt {
    function Label(): string {
      match this
      case NotIdentified => "Não Identificada"
      case Thoughts => "Ideação Suicida - Pensamento Suicida"
      case Planning => "Ideação Suicida - Planejamento"
      case Attempt => "Ideação Suicida - Tentativa"
    }
  }

  /** "Classificação": the support tier. */
  datatype Tier = Tier2 | Tier3 | Tier4 {
    function Label(): string {
      match this
      case Tier2 => "Camada 2"
      case Tier3 => "Camada 3"
      case Tier4 => "Camada 4"
    }
  }

  /** The radio-button options, in the order the form lists them. */
  const ProgressOptions: seq<string> := [
    "Segue necessitando de acompanhamento",
    "Novo encaminhamento",
    "Não necessita mais de acompanhamento"
  ]
  const IdeationOptions: seq<string> := [
    "Não Identificada",
    "Ideação Suicida - Pensamento Suicida",
    "Ideação Suicida - Planejamento",
    "Ideação Suicida - Tentativa"
  ]
  const TierOptions: seq<string> := ["Camada 2", "Camada 3", "Camada 4"]

  /** Reads a stored progress label back. */
  function ParseProgress(s: string): (r: Option<ProgressStatus>)
    ensures r.Some? ==> r.value.Label() == s
  {
    if s == ProgressOptions[0] then Some(StillNeedsFollowUp)
    else if s == ProgressOptions[1] then Some(NewReferral)
    else if s == ProgressOptions[2] then Some(NoLongerNeedsFollowUp)
    else None
  }

  /** Reads a stored ideation label back. */
  function ParseIdeation(s: string): (r: Option<Ideation>)
    ensures r.Some? ==> r.value.Label() == s
  {
    if s == IdeationOptions[0] then Some(NotIdentified)
    else if s == IdeationOptions[1] then Some(Thoughts)
    else if s == IdeationOptions[2] then Some(Planning)
    else if s == IdeationOptions[3] then Some(Attempt)
    else None
  }

  /** Reads a stored tier label back. */
  function ParseTier(s: string): (r: Option<Tier>)
    ensures r.Some? ==> r.value.Label() == s
  {
    if s == TierOptions[0] then Some(Tier2)
    else if s == TierOptions[1] then Some(Tier3)
    else if s == TierOptions[2] then Some(Tier4)
    else None
  }

  /** Every answer is stored as one of the form's option strings, and reads
      back as itself, so distinct answers are stored differently. */
  lemma LabelsRoundTrip(p: ProgressStatus, i: Ideation, t: Tier)
    ensures p.Label() in ProgressOptions && ParseProgress(p.Label()) == Some(p)
    ensures i.Label() in IdeationOptions && ParseIdeation(i.Label()) == Some(i)
    ensures t.Label() in TierOptions && ParseTier(t.Label()) == Some(t)
  {
  }
}
