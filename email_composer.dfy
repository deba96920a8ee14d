/** The bulk e-mail composer (src/components/organisms/EmailComposer.jsx):
    a subject, a body and a list of selected recipient ids, with every
    recipient selected at first. Submitting sends the selected recipients,
    in recipient order, through `bulkSendEmail`. */
module EmailComposer {
  import opened Results
  import Seqs
  import opened Entities
  import ES = EmailService

  /** The `formData` state. */
  datatype ComposerForm = ComposerForm(subject: string, body: string, selected: seq<int>)

  /** The two named inputs `handleChange` serves. */
  datatype FormField = Subject | Body

  /** `recipients.map(r => r.id)`. */
  function RecipientIds(recipients: seq<Recipient>): (ids: seq<int>)
    ensures |ids| == |recipients|
    ensures forall i :: 0 <= i < |recipients| ==> ids[i] == recipients[i].id
  {
    Seqs.Map(recipients, (x: Recipient) => x.id)
  }

  /** The initial state: the defaults and every recipient selected, in recipient order. */
  function Initial(recipients: seq<Recipient>, defaultSubject: string, defaultBody: string): (f: ComposerForm)
    ensures f.subject == defaultSubject && f.body == defaultBody
    ensures forall r :: r in recipients ==> r.id in f.selected
    ensures forall x :: x in f.selected ==> exists r :: r in recipients && r.id == x
    ensures f.selected == RecipientIds(recipients)
  {
    var f := ComposerForm(defaultSubject, defaultBody, RecipientIds(recipients));
    forall r | r in recipients ensures r.id in f.selected {
      var i :| 0 <= i < |recipients| && recipients[i] == r;
      assert f.selected[i] == r.id;
    }
    forall x | x in f.selected ensures exists r :: r in recipients && r.id == x {
      var i :| 0 <= i < |f.selected| && f.selected[i] == x;
      assert recipients[i] in recipients;
    }
    f
  }

  function Other(id: int): int -> bool {
    (x: int) => x != id
  }

  /** `handleRecipientToggle(id)`: a selected id is removed, an unselected one appended. */
  function Toggle(f: ComposerForm, id: int): (g: ComposerForm)
    ensures g.subject == f.subject && g.body == f.body
    ensures id in g.selected <==> id !in f.selected
    ensures forall x :: x != id ==> (x in g.selected <==> x in f.selected)
    ensures id !in f.selected ==> g.selected == f.selected + [id]
    ensures id in f.selected ==> Seqs.IsSubsequence(g.selected, f.selected) && |g.selected| < |f.selected|
  {
    if id in f.selected then
      Seqs.FilterMembership(f.selected, Other(id));
      Seqs.FilterIsSubsequence(f.selected, Other(id));
      FilterDrops(f.selected, Other(id), id);
      f.(selected := Seqs.Filter(f.selected, Other(id)))
    else
      f.(selected := f.selected + [id])
  }

  /** Filtering out an element that occurs shortens the sequence. */
  lemma {:induction false} FilterDrops(s: seq<int>, p: int -> bool, x: int)
    requires x in s && !p(x)
    ensures |Seqs.Filter(s, p)| < |s|
    decreases |s|
  {
    if s[0] != x {
      FilterDrops(s[1..], p, x);
    }
  }

  /** Toggling twice restores every id's membership, and restores the whole
      selection when the id was not selected. */
  lemma ToggleTwice(f: ComposerForm, id: int)
    ensures forall x :: x in Toggle(Toggle(f, id), id).selected <==> x in f.selected
    ensures id !in f.selected ==> Toggle(Toggle(f, id), id) == f
  {
    if id !in f.selected {
      Seqs.FilterConcat(f.selected, [id], Other(id));
      assert Seqs.Filter([id], Other(id)) == [] + Seqs.Filter([], Other(id));
      Seqs.FilterAll(f.selected, Other(id));
    }
  }

  /** `selectAll`. */
  function SelectAll(f: ComposerForm, recipients: seq<Recipient>): (g: ComposerForm)
    ensures g.subject == f.subject && g.body == f.body
    ensures g.selected == RecipientIds(recipients)
  {
    f.(selected := RecipientIds(recipients))
  }

  /** `selectNone`. */
  function SelectNone(f: ComposerForm): (g: ComposerForm)
    ensures g.subject == f.subject && g.body == f.body && g.selected == []
  {
    f.(selected := [])
  }

  /** `handleChange` for the input named `field`. */
  function Change(f: ComposerForm, field: FormField, value: string): (g: ComposerForm)
    ensures g.selected == f.selected
    ensures field == Subject ==> g.subject == value && g.body == f.body
    ensures field == Body ==> g.body == value && g.subject == f.subject
  {
    match field
    case Subject => f.(subject := value)
    case Body => f.(body := value)
  }

  function IsSelected(selected: seq<int>): Recipient -> bool {
    (r: Recipient) => r.id in selected
  }

  /** Lines 27-29: the recipients whose id is selected, in recipient order. */
  function Chosen(recipients: seq<Recipient>, selected: seq<int>): (r: seq<Recipient>)
    ensures forall x :: x in r <==> x in recipients && x.id in selected
    ensures Seqs.IsSubsequence(r, recipients)
  {
    Seqs.FilterMembership(recipients, IsSelected(selected));
    Seqs.FilterIsSubsequence(recipients, IsSelected(selected));
    Seqs.Filter(recipients, IsSelected(selected))
  }

  /** After `selectAll` the composer sends to every recipient. */
  lemma SelectAllChoosesEveryone(f: ComposerForm, recipients: seq<Recipient>)
    ensures Chosen(recipients, SelectAll(f, recipients).selected) == recipients
  {
    var ids := RecipientIds(recipients);
    forall i | 0 <= i < |recipients| ensures IsSelected(ids)(recipients[i]) {
      assert ids[i] == recipients[i].id;
    }
    Seqs.FilterAll(recipients, IsSelected(ids));
  }

  /** `handleSubmit`: `None` for the "select at least one recipient" refusal, otherwise what `bulkSendEmail` returned. */
  method Submit(mail: ES.EmailService, recipients: seq<Recipient>, f: ComposerForm, now: string)
    returns (r: Option<seq<ES.Email>>)
    requires mail.Valid()
    modifies mail
    ensures mail.Valid()
    ensures f.selected == [] ==> r.None? && mail.logs == old(mail.logs)
    ensures f.selected != [] ==>
              r == Some(ES.Stamps(ES.BulkDrafts(Chosen(recipients, f.selected), f.subject, f.body),
                                  ES.NextId(old(mail.logs)), now))
              && mail.logs == old(mail.logs) + r.value
  {
    if |f.selected| == 0 {
      r := None;
      return;
    }
    var results := mail.BulkSendEmail(Chosen(recipients, f.selected), f.subject, f.body, now);
    r := Some(results);
  }
}
