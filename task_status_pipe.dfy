/** The validation pipe applied to the `status` body field of the
    status-update route. It rejects a missing or empty value, rejects a value
    whose upper-case form is not one of the three status names, and otherwise
    passes the value through exactly as it came in. */
module TaskStatusPipe {
  import opened Errors
  import opened TaskStatuses

  /** The pipe's allow-list, in the order the source lists it. */
  const AllowedStatuses: seq<string> := [Open.Name(), InProgress.Name(), Done.Name()]

  const EmptyStatusMessage: string := "status should not be empty"

  /** The message of the second rejection: the value as received, not upper-cased. */
  function InvalidStatusMessage(value: string): string
  {
    value + " is not a valid status."
  }

  // ---------------------------------------------------------------------------
  // Upper-casing (ASCII only: only 'a'..'z' are mapped)
  // ---------------------------------------------------------------------------

  predicate IsLowerAscii(c: char)
  {
    'a' <= c <= 'z'
  }

  function UpperChar(c: char): (u: char)
    ensures IsLowerAscii(c) ==> u as int == c as int - 32
    ensures !IsLowerAscii(c) ==> u == c
    ensures !IsLowerAscii(u)
  {
    if IsLowerAscii(c) then (c as int - 32) as char else c
  }

  /** `String.prototype.toUpperCase`, restricted to ASCII letters. */
  function ToUpperCase(s: string): (r: string)
    ensures |r| == |s|
    ensures forall i :: 0 <= i < |s| ==> r[i] == UpperChar(s[i])
  {
    if s == [] then [] else [UpperChar(s[0])] + ToUpperCase(s[1..])
  }

  /** A string with no lower-case ASCII letter is its own upper-case form. */
  lemma {:induction false} UpperCaseOfUpper(s: string)
    requires forall i :: 0 <= i < |s| ==> !IsLowerAscii(s[i])
    ensures ToUpperCase(s) == s
  {
    if s != [] {
      UpperCaseOfUpper(s[1..]);
    }
  }

  /** Upper-casing twice is upper-casing once. */
  lemma {:induction false} UpperCaseIdempotent(s: string)
    ensures ToUpperCase(ToUpperCase(s)) == ToUpperCase(s)
  {
    UpperCaseOfUpper(ToUpperCase(s));
  }

  /** Every status name is already upper case. */
  lemma NameIsUpperCase(t: TaskStatus)
    ensures ToUpperCase(t.Name()) == t.Name()
  {
    var name := t.Name();
    assert forall i :: 0 <= i < |name| ==> !IsLowerAscii(name[i]) by {
      match t
      case Open =>
      case InProgress =>
      case Done =>
    }
    UpperCaseOfUpper(name);
  }

  // ---------------------------------------------------------------------------
  // The pipe as written
  // ---------------------------------------------------------------------------

  /** Plain membership in the allow-list. */
  function IsValidStatus(status: string): (b: bool)
    ensures b <==> status == "OPEN" || status == "IN_PROGRESS" || status == "DONE"
  {
    status in AllowedStatuses
  }

  /** `transform(value)`: `None` stands for an absent field. */
  function Transform(value: Option<string>): (r: Result<string>)
    ensures r.Ok? <==> value.Some? && IsValidStatus(ToUpperCase(value.value))
    ensures r.Ok? ==> r.value == value.value
    ensures r.Err? ==> r.error.BadRequest?
    ensures value == None || value == Some("") ==> r == Err(BadRequest(EmptyStatusMessage))
    ensures value.Some? && value.value != "" && r.Err? ==>
              r.error.message == InvalidStatusMessage(value.value)
  {
    if value.None? || value.value == "" then
      Err(BadRequest(EmptyStatusMessage))
    else if !IsValidStatus(ToUpperCase(value.value)) then
      Err(BadRequest(InvalidStatusMessage(value.value)))
    else
      Ok(value.value)
  }

  /** The allow-list is exactly the set of status names. */
  lemma AllowListIsTheEnum(s: string)
    ensures IsValidStatus(s) <==> exists t: TaskStatus :: t.Name() == s
  {
    if IsValidStatus(s) {
      var t := if s == "OPEN" then Open else if s == "IN_PROGRESS" then InProgress else Done;
      assert t.Name() == s;
    }
  }

  /** An absent or empty value gets the emptiness message, which is not the
      "not a valid status" message for any value whatever. */
  lemma EmptyIsCheckedFirst(value: Option<string>)
    requires value == None || value == Some("")
    ensures Transform(value) == Err(BadRequest(EmptyStatusMessage))
    ensures forall v :: Transform(value).error.message != InvalidStatusMessage(v)
  {
    forall v ensures EmptyStatusMessage != InvalidStatusMessage(v) {
      var m := InvalidStatusMessage(v);
      assert m[|m| - 1] == '.';
      assert EmptyStatusMessage[|EmptyStatusMessage| - 1] == 'y';
    }
  }

  /** The verdict depends only on the upper-case form of a non-empty value. */
  lemma VerdictDependsOnUpperCase(a: string, b: string)
    requires a != "" && b != "" && ToUpperCase(a) == ToUpperCase(b)
    ensures Transform(Some(a)).Ok? <==> Transform(Some(b)).Ok?
  {
  }

  /** Every case variant of a status name is accepted, unchanged. */
  lemma AcceptsEveryCaseVariant(value: string, t: TaskStatus)
    requires ToUpperCase(value) == t.Name()
    ensures Transform(Some(value)) == Ok(value)
  {
  }

  /** Idempotence: feeding an accepted result back in accepts it again, unchanged. */
  lemma TransformIdempotent(value: Option<string>)
    requires Transform(value).Ok?
    ensures Transform(Some(Transform(value).value)) == Transform(value)
  {
  }

  /** The pass-through lets a value reach the service that is not one of the
      status names it is typed as: "open" is accepted and returned as "open". */
  lemma TransformLetsLowerCaseThrough()
    ensures Transform(Some("open")) == Ok("open")
    ensures !IsValidStatus("open")
  {
    assert ToUpperCase("open") == "OPEN" by {
      assert ToUpperCase("open")[0] == 'O';
      assert ToUpperCase("open")[1] == 'P';
      assert ToUpperCase("open")[2] == 'E';
      assert ToUpperCase("open")[3] == 'N';
    }
  }

  // ---------------------------------------------------------------------------
  // The pipe as evidently intended: the accepted value is normalised to the enum
  // ---------------------------------------------------------------------------

  /** Same guards and messages as Transform, but an accepted value comes back as
      the status whose name is its upper-case form. */
  function ParseStatus(value: Option<string>): (r: Result<TaskStatus>)
    ensures r.Ok? <==> Transform(value).Ok?
    ensures r.Err? ==> r.error == Transform(value).error
    ensures r.Ok? ==> r.value.Name() == ToUpperCase(value.value)
  {
    if value.None? || value.value == "" then
      Err(BadRequest(EmptyStatusMessage))
    else
      var upper := ToUpperCase(value.value);
      if upper == Open.Name() then Ok(Open)
      else if upper == InProgress.Name() then Ok(InProgress)
      else if upper == Done.Name() then Ok(Done)
      else Err(BadRequest(InvalidStatusMessage(value.value)))
  }

  /** Round trip: the name of a status parses back to that status. */
  lemma ParseNameRoundTrip(t: TaskStatus)
    ensures ParseStatus(Some(t.Name())) == Ok(t)
  {
    NameIsUpperCase(t);
  }

  /** What the corrected pipe hands on is always a member of the allow-list. */
  lemma ParsedNameIsAllowed(value: Option<string>)
    requires ParseStatus(value).Ok?
    ensures IsValidStatus(ParseStatus(value).value.Name())
    ensures ParseStatus(Some(ParseStatus(value).value.Name())) == ParseStatus(value)
  {
    ParseNameRoundTrip(ParseStatus(value).value);
  }
}
