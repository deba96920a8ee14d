/** The notifications page (src/components/pages/Notifications.jsx): the
    searchable log of sent messages with its badges, and the per-parent
    preferences form. */
module NotificationsPage {
  import opened Results
  import Seqs
  import opened Text
  import opened RecordTable
  import opened Entities
  import ES = EmailService

  // ---------------------------------------------------------------------
  // Search (`handleSearch`)

  /** The log entry's `to`, `subject` or `type` contains the term, ignoring case. */
  predicate LogMatches(e: ES.Email, term: string) {
    ContainsIgnoringCase(e.to, term) || ContainsIgnoringCase(e.subject, term) || ContainsIgnoringCase(e.kind, term)
  }

  function MatchesTerm(term: string): ES.Email -> bool {
    (e: ES.Email) => LogMatches(e, term)
  }

  /** The logs shown for a search term; the empty term shows all of them. */
  function SearchLogs(logs: seq<ES.Email>, term: string): (r: seq<ES.Email>)
    ensures term == "" ==> r == logs
    ensures term != "" ==> forall e :: e in r <==> e in logs && LogMatches(e, term)
    ensures Seqs.IsSubsequence(r, logs)
  {
    if term == "" then
      Seqs.SubsequenceRefl(logs);
      logs
    else
      Seqs.FilterMembership(logs, MatchesTerm(term));
      Seqs.FilterIsSubsequence(logs, MatchesTerm(term));
      Seqs.Filter(logs, MatchesTerm(term))
  }

  /** Typing more characters into the search box only removes entries from what is shown. */
  lemma SearchNarrows(logs: seq<ES.Email>, shorter: string, longer: string)
    requires StartsWith(longer, shorter)
    ensures forall e :: e in SearchLogs(logs, longer) ==> e in SearchLogs(logs, shorter)
  {
    if shorter != "" {
      forall e | e in SearchLogs(logs, longer) ensures LogMatches(e, shorter) {
        if ContainsIgnoringCase(e.to, longer) {
          ContainsIgnoringCasePrefix(e.to, longer, shorter);
        } else if ContainsIgnoringCase(e.subject, longer) {
          ContainsIgnoringCasePrefix(e.subject, longer, shorter);
        } else {
          ContainsIgnoringCasePrefix(e.kind, longer, shorter);
        }
      }
    }
  }

  /** Searching for an entry's recipient shows that entry. */
  lemma SearchFindsRecipient(logs: seq<ES.Email>, e: ES.Email)
    requires e in logs
    ensures e in SearchLogs(logs, e.to)
  {
    ContainsIgnoringCaseSelf(e.to);
  }

  // ---------------------------------------------------------------------
  // `formatType`

  /** `replace(/_/g, ' ')`. */
  function Underscores(s: string): (r: string)
    ensures |r| == |s|
    ensures forall i :: 0 <= i < |s| ==> r[i] == (if s[i] == '_' then ' ' else s[i])
  {
    seq(|s|, i requires 0 <= i < |s| => if s[i] == '_' then ' ' else s[i])
  }

  /** Where `\b\w` matches: a word character with no word character before it. */
  predicate AtWordStart(s: string, i: int)
    requires 0 <= i < |s|
  {
    IsWordChar(s[i]) && (i == 0 || !IsWordChar(s[i - 1]))
  }

  /** `replace(/\b\w/g, l => l.toUpperCase())`. */
  function Capitalize(s: string): (r: string)
    ensures |r| == |s|
    ensures forall i :: 0 <= i < |s| ==> r[i] == (if AtWordStart(s, i) then UpperChar(s[i]) else s[i])
  {
    seq(|s|, i requires 0 <= i < |s| => if AtWordStart(s, i) then UpperChar(s[i]) else s[i])
  }

  /** A message type as the log shows it: underscores become spaces and each word starts upper-case. */
  function FormatType(kind: string): (r: string)
    ensures |r| == |kind|
    ensures forall i :: 0 <= i < |r| ==> r[i] != '_'
    ensures forall i :: 0 <= i < |r| && AtWordStart(r, i) ==> !('a' <= r[i] <= 'z')
    ensures forall i :: 0 <= i < |r| && kind[i] != '_' ==> LowerChar(r[i]) == LowerChar(kind[i])
    ensures forall i :: 0 <= i < |kind| && kind[i] == '_' ==> r[i] == ' '
    ensures forall i :: 0 <= i < |r| && AtWordStart(r, i) ==> r[i] == UpperChar(kind[i])
    ensures forall i :: 0 <= i < |r| && kind[i] != '_' && !AtWordStart(r, i) ==> r[i] == kind[i]
  {
    var u := Underscores(kind);
    var r := Capitalize(u);
    forall i | 0 <= i < |r| ensures IsWordChar(r[i]) == IsWordChar(u[i]) {
      UpperCharKeepsWordChar(u[i]);
    }
    r
  }

  /** Formatting an already formatted type changes nothing. */
  lemma FormatTypeIdempotent(kind: string)
    ensures FormatType(FormatType(kind)) == FormatType(kind)
  {
    var r := FormatType(kind);
    var u := Underscores(r);
    assert u == r;
    var c := Capitalize(u);
    forall i | 0 <= i < |r| ensures c[i] == r[i] {
      if AtWordStart(r, i) {
        assert !('a' <= r[i] <= 'z');
      }
    }
  }

  lemma FormatTypeExample()
    ensures FormatType("grade_update") == "Grade Update"
  {
    var u := Underscores("grade_update");
    assert u == "grade update";
    assert Capitalize(u) == "Grade Update";
  }

  // ---------------------------------------------------------------------
  // Badge colours

  /** `getStatusColor`. */
  function StatusColor(status: string): (c: string)
    ensures c == "default" <==> status !in ["sent", "pending", "failed"]
    ensures c == "success" <==> status == "sent"
    ensures c == "warning" <==> status == "pending"
    ensures c == "error" <==> status == "failed"
  {
    match status
    case "sent" => "success"
    case "pending" => "warning"
    case "failed" => "error"
    case _ => "default"
  }

  /** `getTypeColor`. */
  function TypeColor(kind: string): (c: string)
    ensures c == "default" <==> kind !in ["grade_update", "attendance_alert", "assignment_notification", "bulk_email"]
    ensures c == "primary" <==> kind == "grade_update"
    ensures c == "warning" <==> kind == "attendance_alert"
    ensures c == "secondary" <==> kind == "assignment_notification"
    ensures c == "info" <==> kind == "bulk_email"
  {
    match kind
    case "grade_update" => "primary"
    case "attendance_alert" => "warning"
    case "assignment_notification" => "secondary"
    case "bulk_email" => "info"
    case _ => "default"
  }

  /** Every message the dispatcher composes is shown with its own type colour, and every
      message `sendEmail` logs is shown with the success badge. */
  lemma LoggedMessagesHaveBadges(s: Student, g: Grade, percent: int, a: AttendanceMark, asg: Assignment,
                                 shownDue: string, rcp: Recipient, subject: string, body: string,
                                 d: ES.Draft, id: int, now: string)
    ensures TypeColor(ES.GradeDraft(s, g, percent).kind) == "primary"
    ensures TypeColor(ES.AttendanceDraft(s, a).kind) == "warning"
    ensures TypeColor(ES.AssignmentDraft(s, asg, shownDue).kind) == "secondary"
    ensures TypeColor(ES.BulkDraft(rcp, subject, body).kind) == "info"
    ensures StatusColor(ES.Stamp(d, id, now).status) == "success"
  {
  }

  // ---------------------------------------------------------------------
  // The preferences form

  /** The `parentPreferences` object, field name to value. */
  type PrefsForm = map<string, Value>

  /** The form before any parent is chosen. */
  function DefaultPrefsForm(): (f: PrefsForm)
    ensures f.Keys == {"gradeUpdates", "attendanceAlerts", "assignmentDeadlines", "generalAnnouncements", "emailFrequency"}
    ensures forall k :: k in f && k != "emailFrequency" ==> f[k] == Bool(true)
    ensures f["emailFrequency"] == Str("immediate")
  {
    map["gradeUpdates" := Bool(true), "attendanceAlerts" := Bool(true), "assignmentDeadlines" := Bool(true),
        "generalAnnouncements" := Bool(true), "emailFrequency" := Str("immediate")]
  }

  /** `handlePreferenceChange`: the input named `name` gets its `checked` flag if it is a checkbox, else its `value`. */
  function ChangePreference(f: PrefsForm, name: string, inputType: string, value: string, checked: bool): (g: PrefsForm)
    ensures name in g && g[name] == (if inputType == "checkbox" then Bool(checked) else Str(value))
    ensures forall k :: k != name ==> (k in g <==> k in f) && (k in f ==> g[k] == f[k])
  {
    f[name := if inputType == "checkbox" then Bool(checked) else Str(value)]
  }

  /** A change to one field is undone by changing it back to its old value. */
  lemma ChangeBack(f: PrefsForm, name: string, value: string)
    requires name in f && f[name].Str?
    ensures ChangePreference(ChangePreference(f, name, "select", value, false), name, "select", f[name].s, false) == f
  {
    var g := ChangePreference(ChangePreference(f, name, "select", value, false), name, "select", f[name].s, false);
    assert g.Keys == f.Keys;
  }

  /** The write `handlePreferencesUpdate` asks the preferences service for. */
  datatype PrefsWrite = Refused | UpdatePrefs(parentEmail: string, prefs: PrefsForm)

  /** `handlePreferencesUpdate`: refused ("Please select a parent") with no parent selected. */
  function PreferencesUpdate(selectedParent: string, f: PrefsForm): (w: PrefsWrite)
    ensures w.Refused? <==> selectedParent == ""
    ensures w.UpdatePrefs? ==> w.parentEmail == selectedParent && w.prefs == f
  {
    if selectedParent == "" then Refused else UpdatePrefs(selectedParent, f)
  }
}
