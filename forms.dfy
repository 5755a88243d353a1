/**
 * The clean_* validators of core/forms.py and the evidence normalisation of
 * PunishmentForm.save. Each validator is modelled on the value the form
 * framework hands it (already converted to an int, a time or a parsed JSON
 * value); it returns the cleaned value or the error message it raises.
 */
module Forms {
  import opened Common
  import opened Models

  // ---------------------------------------------------------------------
  // Whitespace stripping

  lemma TrimLeftKeeps(s: string)
    requires s == [] || !IsSpace(s[0])
    ensures TrimLeft(s) == s
  {
  }

  lemma TrimRightKeeps(s: string)
    requires s == [] || !IsSpace(s[|s| - 1])
    ensures TrimRight(s) == s
  {
  }

  /** Stripping twice is stripping once. */
  lemma StripIdempotent(s: string)
    ensures Strip(Strip(s)) == Strip(s)
  {
    var l := TrimLeft(s);
    var r := TrimRight(l);
    if r != [] {
      assert r[0] == l[0];
    }
    TrimLeftKeeps(r);
    TrimRightKeeps(r);
  }

  // ---------------------------------------------------------------------
  // SidequestForm

  const MinTitleLength: nat := 3
  const MaxExpReward: int := 10000

  /** The title is stripped; a blank or too short title is refused. */
  function CleanTitle(title: string): (r: Result<string, string>)
    ensures r.Ok? <==> |Strip(title)| >= MinTitleLength
    ensures r.Ok? ==> r.value == Strip(title)
    ensures Strip(title) == "" ==> r == Err("Title is required.")
  {
    var t := Strip(title);
    if t == "" then Err("Title is required.")
    else if |t| < MinTitleLength then Err("Title must be at least 3 characters long.")
    else Ok(t)
  }

  /** A no-break space is whitespace to str.strip(): "\u00a0ab" is two characters long once stripped. */
  lemma PaddedTitleTooShort()
    ensures CleanTitle("\U{00A0}ab") == Err("Title must be at least 3 characters long.")
  {
  }

  /** A cleaned title is accepted again unchanged. */
  lemma CleanTitleIdempotent(title: string)
    requires CleanTitle(title).Ok?
    ensures CleanTitle(CleanTitle(title).value) == CleanTitle(title)
  {
    StripIdempotent(title);
  }

  /** The regular reward lies in [0, 10000]. */
  function CleanExpReward(reward: int): (r: Result<int, string>)
    ensures r.Ok? <==> 0 <= reward <= MaxExpReward
    ensures r.Ok? ==> r.value == reward
  {
    if reward < 0 then Err("EXP reward cannot be negative.")
    else if reward > MaxExpReward then Err("EXP reward cannot exceed 10000.")
    else Ok(reward)
  }

  /**
   * The late reward lies in [0, regular reward]; when the regular reward
   * failed its own check it is missing from the cleaned data and counts as 0.
   */
  function CleanLateExpReward(late: int, expReward: Option<int>): (r: Result<int, string>)
    ensures r.Ok? <==> 0 <= late && (expReward.Some? ==> late <= expReward.value) && (expReward.None? ==> late <= 0)
    ensures r.Ok? ==> r.value == late
  {
    var regular := if expReward.Some? then expReward.value else 0;
    if late < 0 then Err("Late EXP reward cannot be negative.")
    else if late > regular then Err("Late EXP reward cannot exceed regular EXP reward.")
    else Ok(late)
  }

  /** A due date, when given, may not lie in the past. */
  function CleanDueDate(due: Option<int>, now: int): (r: Result<Option<int>, string>)
    ensures r.Err? <==> due.Some? && due.value < now
    ensures r.Ok? ==> r.value == due
  {
    if due.Some? && due.value < now then Err("Due date cannot be in the past.") else Ok(due)
  }

  /**
   * Rewards that pass the form keep the late-reward rule sensible: a late
   * submission earns between 0 and the on-time reward, which is at most 10000.
   */
  lemma ValidRewardsPayLateNoMore(quest: Sidequest, early: int, late: int)
    requires CleanExpReward(quest.expReward).Ok?
    requires CleanLateExpReward(quest.lateExpReward, Some(quest.expReward)).Ok?
    requires early <= quest.dueDate < late
    ensures 0 <= GetExpReward(late, quest) <= GetExpReward(early, quest) <= MaxExpReward
  {
    LateNeverPaysMore(early, late, quest);
  }

  // ---------------------------------------------------------------------
  // SubmissionForm

  /** An uploaded file: its name and its size in bytes. */
  datatype Upload = Upload(name: string, size: int)

  const MaxFileSize: int := 10 * 1024 * 1024

  const AllowedExtensions: seq<string> := [".pdf", ".doc", ".docx", ".zip", ".rar", ".txt", ".jpg", ".jpeg", ".png"]

  const DangerousPatterns: seq<string> := ["..", "/", "\\", "\U{0000}"]

  /** The position of the last `c` in `s`, or -1. */
  function LastIndex(s: string, c: char): (r: int)
    ensures -1 <= r < |s|
    ensures r >= 0 ==> s[r] == c
    ensures forall j :: r < j < |s| ==> s[j] != c
    decreases |s|
  {
    if s == [] then -1
    else if s[|s| - 1] == c then |s| - 1
    else LastIndex(s[..|s| - 1], c)
  }

  /**
   * The extension as os.path.splitext computes it: from the last dot of the
   * last path component, unless that component is only dots before it.
   */
  function SplitExt(name: string): (ext: string)
    ensures ext == "" || (ext[0] == '.' && |ext| <= |name| && ext == name[|name| - |ext|..])
    ensures forall j :: 1 <= j < |ext| ==> ext[j] != '.' && ext[j] != '/'
  {
    var sep := LastIndex(name, '/');
    var dot := LastIndex(name, '.');
    if dot > sep && exists k :: sep + 1 <= k < dot && name[k] != '.' then name[dot..] else ""
  }

  /** The error of clean_submitted_file, checked in the source's order, if any. */
  function CleanSubmittedFile(file: Option<Upload>): (r: Result<Upload, string>)
    ensures r.Ok? <==>
      && file.Some? && file.value.name != ""
      && file.value.size <= MaxFileSize
      && Lower(SplitExt(file.value.name)) in AllowedExtensions
      && forall p :: p in DangerousPatterns ==> !Contains(file.value.name, p)
    ensures r.Ok? ==> r.value == file.value
  {
    if file.None? || file.value.name == "" then Err("Please select a file to upload.")
    else if file.value.size > MaxFileSize then Err("File size cannot exceed 10.0MB.")
    else if Lower(SplitExt(file.value.name)) !in AllowedExtensions then
      Err("Invalid file type. Allowed types: .pdf, .doc, .docx, .zip, .rar, .txt, .jpg, .jpeg, .png")
    else if exists p :: p in DangerousPatterns && Contains(file.value.name, p) then Err("Invalid file name.")
    else Ok(file.value)
  }

  /** A string that does not contain the one-character string [c] has no c at all. */
  lemma NoCharWithoutContains(s: string, c: char)
    requires !Contains(s, [c])
    ensures forall i :: 0 <= i < |s| ==> s[i] != c
  {
    forall i | 0 <= i < |s|
      ensures s[i] != c
    {
      assert s[i..][..1] == [s[i]];
    }
  }

  /** A string that does not contain ".." has no two dots in a row. */
  lemma NoDoubleDotWithoutContains(s: string)
    requires !Contains(s, "..")
    ensures forall i :: 0 <= i < |s| - 1 ==> s[i] != '.' || s[i + 1] != '.'
  {
    forall i | 0 <= i < |s| - 1
      ensures s[i] != '.' || s[i + 1] != '.'
    {
      assert s[i..][..2] == [s[i], s[i + 1]];
    }
  }

  /** A string none of whose characters starts `part` does not contain it. */
  lemma NotContainedWithoutFirstChar(s: string, part: string)
    requires |part| > 0
    requires forall i :: 0 <= i < |s| ==> s[i] != part[0]
    ensures !Contains(s, part)
  {
    forall i | 0 <= i <= |s| - |part|
      ensures s[i..][..|part|] != part
    {
      assert s[i..][..|part|][0] == s[i];
    }
  }

  /** An accepted file name has no path separator, no NUL and no two dots in a row. */
  lemma AcceptedNameIsPlain(file: Option<Upload>)
    requires CleanSubmittedFile(file).Ok?
    ensures forall i :: 0 <= i < |file.value.name| ==>
      file.value.name[i] != '/' && file.value.name[i] != '\\' && file.value.name[i] != '\U{0000}'
    ensures forall i :: 0 <= i < |file.value.name| - 1 ==> file.value.name[i] != '.' || file.value.name[i + 1] != '.'
  {
    var name := file.value.name;
    assert "/" in DangerousPatterns && "\\" in DangerousPatterns && "\U{0000}" in DangerousPatterns;
    assert ".." in DangerousPatterns;
    NoCharWithoutContains(name, '/');
    NoCharWithoutContains(name, '\\');
    NoCharWithoutContains(name, '\U{0000}');
    NoDoubleDotWithoutContains(name);
  }

  /** The extension of "report.PDF" is ".PDF". */
  lemma ReportExtension()
    ensures SplitExt("report.PDF") == ".PDF"
  {
    var name := "report.PDF";
    assert name[6] == '.' && name[7] != '.' && name[8] != '.' && name[9] != '.';
    assert LastIndex(name, '.') == 6;
    assert name[0] != '.';
    assert name[6..] == ".PDF";
  }

  /** "report.PDF" contains none of the dangerous patterns. */
  lemma ReportNameSafe()
    ensures forall p :: p in DangerousPatterns ==> !Contains("report.PDF", p)
  {
    var name := "report.PDF";
    NotContainedWithoutFirstChar(name, "/");
    NotContainedWithoutFirstChar(name, "\\");
    NotContainedWithoutFirstChar(name, "\U{0000}");
    forall i | 0 <= i <= |name| - 2
      ensures name[i..][..2] != ".."
    {
      assert name[i..][..2] == [name[i], name[i + 1]];
    }
  }

  /** The extension check ignores case: "report.PDF" is accepted. */
  lemma UpperCaseExtensionAccepted()
    ensures CleanSubmittedFile(Some(Upload("report.PDF", 1000))).Ok?
  {
    ReportExtension();
    PdfLowered();
    assert AllowedExtensions[0] == ".pdf";
    ReportNameSafe();
  }

  /** Lower-casing ".PDF" gives the first allowed extension. */
  lemma PdfLowered()
    ensures Lower(".PDF") == ".pdf"
  {
    var r := Lower(".PDF");
    assert r[0] == '.' && r[1] == 'p' && r[2] == 'd' && r[3] == 'f';
  }

  /** A name made only of dots before its extension has no extension: ".pdf" is refused. */
  lemma DotOnlyNameRejected()
    ensures CleanSubmittedFile(Some(Upload(".pdf", 1000))).Err?
  {
    assert ".pdf"[0] == '.' && ".pdf"[1] != '.' && ".pdf"[2] != '.' && ".pdf"[3] != '.';
    assert LastIndex(".pdf", '.') == 0;
    assert SplitExt(".pdf") == "";
  }

  // ---------------------------------------------------------------------
  // GradeSubmissionForm

  const MaxFeedbackLength: nat := 1000

  /** A grade may be missing; otherwise it lies in [0, 100]. */
  function CleanGrade(grade: Option<int>): (r: Result<Option<int>, string>)
    ensures r.Ok? <==> grade.None? || 0 <= grade.value <= 100
    ensures r.Ok? ==> r.value == grade
  {
    if grade.Some? && (grade.value < 0 || grade.value > 100) then Err("Grade must be between 0 and 100.")
    else Ok(grade)
  }

  /** Feedback is stripped and may hold at most 1000 characters. */
  function CleanFeedback(feedback: string): (r: Result<string, string>)
    ensures r.Ok? <==> |Strip(feedback)| <= MaxFeedbackLength
    ensures r.Ok? ==> r.value == Strip(feedback)
  {
    var f := Strip(feedback);
    if f != "" && |f| > MaxFeedbackLength then Err("Feedback cannot exceed 1000 characters.") else Ok(f)
  }

  datatype GradeInput = GradeInput(grade: Option<int>, feedback: string)

  /** The whole grading form: valid when both fields are; every failing field's message is reported. */
  function CleanGradeForm(grade: Option<int>, feedback: string): (r: Result<GradeInput, seq<string>>)
    ensures r.Ok? <==> CleanGrade(grade).Ok? && CleanFeedback(feedback).Ok?
    ensures r.Ok? ==> r.value == GradeInput(grade, Strip(feedback))
    ensures r.Err? ==> 1 <= |r.error| <= 2
    ensures r.Err? ==> |r.error| == (if CleanGrade(grade).Err? then 1 else 0) + (if CleanFeedback(feedback).Err? then 1 else 0)
    ensures r.Err? ==> forall e :: e in r.error <==>
      || (CleanGrade(grade).Err? && e == CleanGrade(grade).error)
      || (CleanFeedback(feedback).Err? && e == CleanFeedback(feedback).error)
  {
    var g := CleanGrade(grade);
    var f := CleanFeedback(feedback);
    if g.Ok? && f.Ok? then Ok(GradeInput(g.value, f.value))
    else Err((if g.Err? then [g.error] else []) + (if f.Err? then [f.error] else []))
  }

  // ---------------------------------------------------------------------
  // PunishmentForm

  const MaxEvidenceLength: nat := 10000
  const MaxEvidenceKeys: nat := 50

  /** A value the evidence may hold: a string, a number, a boolean or null. */
  predicate IsSimple(v: Json)
  {
    !v.JArray? && !v.JObject?
  }

  /**
   * clean_evidence_json on the raw text and the result of decoding it (a
   * value or the decoder's message): blank text gives the empty object;
   * otherwise the text must be short, decode to an object of at most 50 keys
   * whose values are all simple.
   */
  function CleanEvidence(raw: string, decoded: Result<Json, string>): (r: Result<map<string, Json>, string>)
    ensures Strip(raw) == "" ==> r == Ok(map[])
    ensures Strip(raw) != "" ==>
      (r.Ok? <==> |raw| <= MaxEvidenceLength && decoded.Ok? && decoded.value.JObject?
                  && |decoded.value.fields| <= MaxEvidenceKeys
                  && forall k :: k in decoded.value.fields ==> IsSimple(decoded.value.fields[k]))
    ensures Strip(raw) != "" && r.Ok? ==> decoded == Ok(JObject(r.value))
  {
    if raw == "" || Strip(raw) == "" then Ok(map[])
    else if |raw| > MaxEvidenceLength then Err("Evidence JSON is too large. Maximum 10000 characters.")
    else match decoded
      case Err(message) => Err("Invalid JSON format: " + message)
      case Ok(value) =>
        if !value.JObject? then Err("Evidence must be a JSON object (dictionary).")
        else if |value.fields| > MaxEvidenceKeys then Err("Evidence object cannot have more than 50 keys.")
        else if exists k :: k in value.fields && !IsSimple(value.fields[k]) then
          Err("Evidence values must be simple types (string, number, boolean, null).")
        else Ok(value.fields)
  }

  /** save() keeps the cleaned evidence when there is one and stores the empty object otherwise. */
  function SaveEvidence(cleaned: Option<map<string, Json>>): (r: map<string, Json>)
    ensures cleaned.Some? ==> r == cleaned.value
    ensures cleaned.None? ==> r == map[]
  {
    if cleaned.Some? then cleaned.value else map[]
  }

  /** Every evidence dictionary that reaches the store through the form is flat and small. */
  lemma SavedEvidenceIsFlat(raw: string, decoded: Result<Json, string>)
    requires CleanEvidence(raw, decoded).Ok?
    ensures var m := SaveEvidence(Some(CleanEvidence(raw, decoded).value));
      |m| <= MaxEvidenceKeys && forall k :: k in m ==> IsSimple(m[k])
  {
  }
}
