/** `String.prototype.trim`, with the white space and line terminators of
    the ECMAScript language (sections 12.2 and 12.3 of ECMA-262): tab,
    vertical tab, form feed, the byte order mark, every space separator of
    Unicode category Zs, and line feed, carriage return and the line and
    paragraph separators. */
module Trimming {
  predicate IsSpace(c: char) {
    || c == '\t' || c == '\n' || c == '\U{000B}' || c == '\U{000C}' || c == '\r'
    || c == ' ' || c == '\U{00A0}' || c == '\U{1680}'
    || ('\U{2000}' <= c <= '\U{200A}')
    || c == '\U{2028}' || c == '\U{2029}' || c == '\U{202F}' || c == '\U{205F}'
    || c == '\U{3000}' || c == '\U{FEFF}'
  }

  /** The length of the white-space run s starts with. */
  function Leading(s: string): (n: nat)
    ensures n <= |s|
    ensures forall k :: 0 <= k < n ==> IsSpace(s[k])
    ensures n < |s| ==> !IsSpace(s[n])
  {
    if s != [] && IsSpace(s[0]) then 1 + Leading(s[1..]) else 0
  }

  /** The length of the white-space run s ends with. */
  function Trailing(s: string): (n: nat)
    ensures n <= |s|
    ensures forall k :: |s| - n <= k < |s| ==> IsSpace(s[k])
    ensures n < |s| ==> !IsSpace(s[|s| - n - 1])
  {
    if s != [] && IsSpace(s[|s| - 1]) then 1 + Trailing(s[..|s| - 1]) else 0
  }

  /** s without its leading white space. */
  function TrimStart(s: string): string {
    s[Leading(s)..]
  }

  /** s without its trailing white space. */
  function TrimEnd(s: string): string {
    s[..|s| - Trailing(s)]
  }

  function Trim(s: string): string {
    TrimEnd(TrimStart(s))
  }

  /** The trimmed string is the middle of s between white-space runs: it
      starts where the leading run ends. */
  lemma TrimSpec(s: string)
    ensures var i := Leading(s); var j := i + |Trim(s)|;
      && 0 <= i <= j <= |s| && Trim(s) == s[i..j]
      && (forall k :: 0 <= k < i ==> IsSpace(s[k]))
      && (forall k :: j <= k < |s| ==> IsSpace(s[k]))
  {
    TrimWindow(s);
    TrimTail(s);
  }

  /** Trim(s) is the window of s after the leading run. */
  lemma TrimWindow(s: string)
    ensures Leading(s) + |Trim(s)| <= |s|
    ensures Trim(s) == s[Leading(s)..Leading(s) + |Trim(s)|]
  {
    var t := s[Leading(s)..];
    SliceOfSlice(s, Leading(s), |t| - Trailing(t));
  }

  /** A prefix of a suffix is a slice. */
  lemma SliceOfSlice(s: string, i: nat, m: nat)
    requires i + m <= |s|
    ensures s[i..][..m] == s[i..i + m]
  {
  }

  /** What follows that window is white space. */
  lemma TrimTail(s: string)
    ensures Leading(s) + |Trim(s)| <= |s|
    ensures forall k :: Leading(s) + |Trim(s)| <= k < |s| ==> IsSpace(s[k])
  {
    var i := Leading(s);
    var t := s[i..];
    var j := i + |Trim(s)|;
    assert |Trim(s)| == |t| - Trailing(t);
    forall k | j <= k < |s| ensures IsSpace(s[k]) {
      assert s[k] == t[k - i];
    }
  }

  /** The trimmed string neither starts nor ends with white space. */
  lemma TrimEnds(s: string)
    ensures var r := Trim(s); r == [] || (!IsSpace(r[0]) && !IsSpace(r[|r| - 1]))
  {
    var t := TrimStart(s);
    var r := TrimEnd(t);
    if r != [] {
      assert r[0] == t[0];
      assert r[|r| - 1] == t[|t| - Trailing(t) - 1];
    }
  }

  /** A string trims to nothing exactly when it is all white space. */
  lemma TrimEmpty(s: string)
    ensures Trim(s) == [] <==> forall k :: 0 <= k < |s| ==> IsSpace(s[k])
  {
  }

  /** Trimming twice is trimming once. */
  lemma TrimIdempotent(s: string)
    ensures Trim(Trim(s)) == Trim(s)
  {
    TrimEnds(s);
    var r := Trim(s);
    if r != [] {
      assert TrimStart(r) == r;
    }
  }
}

/** The add/edit task form's state (frontend/src/components/TaskForm.tsx:12-38,
    60-63, 87, 107-129): the title, description and priority fields and the
    title's error message. */
module TaskFormState {
  import opened Wrappers
  import opened Types
  import opened Trimming

  const TitleRequired := "Title is required"

  /** What `onSubmit` receives; an absent description is `undefined`. */
  datatype Submission = Submission(title: string, description: Option<string>, priority: Priority)

  class TaskForm {
    var title: string
    var description: string
    var priority: Priority
    var titleError: string

    /** The fields start from the task being edited, if any, else empty with
        medium priority; there is no error. */
    constructor (initialValues: Option<Task>)
      ensures title == (if initialValues.Some? then initialValues.value.title else "")
      ensures description == (if initialValues.Some? then initialValues.value.description.GetOr("") else "")
      ensures priority == (if initialValues.Some? then initialValues.value.priority.GetOr(Medium) else Medium)
      ensures titleError == ""
    {
      titleError := "";
      match initialValues
      case None =>
        title, description, priority := "", "", Medium;
      case Some(t) =>
        title, description, priority := t.title, t.description.GetOr(""), t.priority.GetOr(Medium);
    }

    /** `handleSubmit`: a title that trims to nothing sets the error and sends
        nothing, with the fields left as they are; otherwise the trimmed
        title, the trimmed description (absent when it trims to nothing) and
        the priority are sent once, and the form is reset. */
    method HandleSubmit() returns (sent: Option<Submission>)
      modifies this
      ensures Trim(old(title)) == "" ==>
        && sent.None? && titleError == TitleRequired
        && title == old(title) && description == old(description) && priority == old(priority)
      ensures Trim(old(title)) != "" ==>
        && sent == Some(Submission(
             Trim(old(title)),
             if Trim(old(description)) == "" then None else Some(Trim(old(description))),
             old(priority)))
        && title == "" && description == "" && priority == Medium && titleError == ""
    {
      var trimmed := Trim(title);
      if trimmed == "" {
        titleError := TitleRequired;
        return None;
      }
      var desc := Trim(description);
      sent := Some(Submission(trimmed, if desc == "" then None else Some(desc), priority));
      title := "";
      description := "";
      priority := Medium;
      titleError := "";
    }

    /** The title input's `onChange`: the value is taken, and the error is
        cleared when the value trims to something. */
    method OnTitleChange(value: string)
      modifies this
      ensures title == value && description == old(description) && priority == old(priority)
      ensures titleError == if Trim(value) != "" then "" else old(titleError)
    {
      title := value;
      if Trim(value) != "" {
        titleError := "";
      }
    }

    /** The description input's `onChange`. */
    method OnDescriptionChange(value: string)
      modifies this
      ensures description == value && title == old(title) && priority == old(priority) && titleError == old(titleError)
    {
      description := value;
    }

    /** One of the three priority buttons. */
    method OnPrioritySelect(p: Priority)
      modifies this
      ensures priority == p && title == old(title) && description == old(description) && titleError == old(titleError)
    {
      priority := p;
    }
  }

  /** What a valid submit sends is a title that is not empty and carries no
      white space at either end, and a description that, when present, is
      the same. */
  lemma SubmissionTrimmed(title: string, description: string, p: Priority)
    requires Trim(title) != ""
    ensures var d := Trim(description);
      var sub := Submission(Trim(title), if d == "" then None else Some(d), p);
      && sub.title != [] && !IsSpace(sub.title[0]) && !IsSpace(sub.title[|sub.title| - 1])
      && (sub.description.Some? ==>
            sub.description.value != [] && !IsSpace(sub.description.value[0])
            && !IsSpace(sub.description.value[|sub.description.value| - 1]))
      && Trim(sub.title) == sub.title
  {
    TrimEnds(title);
    TrimEnds(description);
    TrimIdempotent(title);
  }
}
