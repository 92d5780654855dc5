/** The required-field check run on submit (paginas/radar_saude_mental.py,
    lines 221-225). */
module Checklist {
  import opened Wrappers
  import opened Text
  import opened Seqs
  import opened Answers

  /** What the form holds on submit. A radio button with no choice is
      `None`; the comment and the document links are free text. */
  datatype Form = Form(
    progress: Option<ProgressStatus>, comment: string, ideation: Option<Ideation>,
    tier: Option<Tier>, documents: string)

  /** The four required fields, with the names the warning shows. */
  datatype Field = ProgressField | CommentField | IdeationField | TierField {
    function Label(): string {
      match this
      case ProgressField => "Progresso"
      case CommentField => "Comentário"
      case IdeationField => "Ideação Suicida Identificada?"
      case TierField => "Classificação"
    }
  }

  /** The required fields in the order they are checked. */
  const RequiredFields: seq<Field> := [ProgressField, CommentField, IdeationField, TierField]

  /** A required field counts as unanswered: no radio choice, or a comment
      that is empty or whitespace only. */
  predicate Blank(form: Form, f: Field) {
    match f
    case ProgressField => form.progress.None?
    case CommentField => Strip(form.comment) == ""
    case IdeationField => form.ideation.None?
    case TierField => form.tier.None?
  }

  /** `faltando` (lines 221-225): the unanswered required fields, in the
      order they are checked. Each field is listed exactly when it is left
      blank. Only presence is checked. */
  function MissingFields(form: Form): (r: seq<Field>)
    ensures ProgressField in r <==> form.progress.None?
    ensures CommentField in r <==> Strip(form.comment) == ""
    ensures IdeationField in r <==> form.ideation.None?
    ensures TierField in r <==> form.tier.None?
  {
    var a := if form.progress.None? then [ProgressField] else [];
    var b := if form.comment == "" || Strip(form.comment) == "" then [CommentField] else [];
    var c := if form.ideation.None? then [IdeationField] else [];
    var d := if form.tier.None? then [TierField] else [];
    a + b + c + d
  }

  /** The form passes the check exactly when all three choices are made and
      the comment has a character other than whitespace. */
  lemma MissingFieldsNone(form: Form)
    ensures MissingFields(form) == [] <==> form.progress.Some? && !AllSpace(form.comment) && form.ideation.Some? && form.tier.Some?
  {
    StripEmpty(form.comment);
    if MissingFields(form) != [] {
      assert MissingFields(form)[0] in MissingFields(form);
    }
  }

  /** The missing fields are the required fields, in declared order, that
      are blank: the same list an order-preserving filter gives. */
  lemma MissingFieldsInOrder(form: Form)
    ensures MissingFields(form) == Filter(f => Blank(form, f), RequiredFields)
    ensures IsSubsequence(MissingFields(form), RequiredFields)
  {
    var p := f => Blank(form, f);
    FilterOfFour(p, ProgressField, CommentField, IdeationField, TierField);
    assert p(CommentField) == (form.comment == "" || Strip(form.comment) == "");
  }
}
