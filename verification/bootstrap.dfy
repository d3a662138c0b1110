/**
 * The pieces of server start-up that decide something: flattening of
 * validation errors into field issues, the validation failure envelope,
 * the CORS origin list and the CORS origin check.
 */
module Bootstrap {
  import opened Wrappers
  import opened Text
  import opened Envelope
  import opened HttpErrors
  import opened ExceptionFilter

  const ValidationMessage: string := "validation error"

  /**
   * A node of the validator's error tree: the property, the messages of its
   * failed constraints in declaration order (none when undefined) and its
   * child nodes (none when undefined).
   */
  datatype ValidationError = ValidationError(property: string, constraints: seq<string>, children: seq<ValidationError>)

  datatype ValidationIssue = ValidationIssue(field: string, errors: seq<string>)

  /** `parent.property`, or `property` at the root (an empty parent path). */
  function FieldPath(parentPath: string, property: string): string {
    if parentPath == "" then property else parentPath + "." + property
  }

  /**
   * `collectValidationIssues`: pre-order flattening; a node contributes an
   * issue only when it has a failed constraint, before its children's.
   */
  function CollectValidationIssues(errors: seq<ValidationError>, parentPath: string): (r: seq<ValidationIssue>)
    ensures forall i | 0 <= i < |r| :: |r[i].errors| > 0
    ensures |errors| > 0 && |errors[0].constraints| > 0 ==>
              |r| > 0 && r[0] == ValidationIssue(FieldPath(parentPath, errors[0].property), errors[0].constraints)
    decreases errors
  {
    if |errors| == 0 then []
    else
      var error := errors[0];
      var field := FieldPath(parentPath, error.property);
      var issues := if |error.constraints| > 0 then [ValidationIssue(field, error.constraints)] else [];
      assert error in errors;
      var childIssues := CollectValidationIssues(error.children, field);
      issues + childIssues + CollectValidationIssues(errors[1..], parentPath)
  }

  /** How many nodes of the forest have a failed constraint. */
  function ConstrainedNodes(errors: seq<ValidationError>): nat
    decreases errors
  {
    if |errors| == 0 then 0
    else
      assert errors[0] in errors;
      (if |errors[0].constraints| > 0 then 1 else 0)
      + ConstrainedNodes(errors[0].children) + ConstrainedNodes(errors[1..])
  }

  /** One issue per constrained node: none is lost and none is invented. */
  lemma {:induction false} OneIssuePerConstrainedNode(errors: seq<ValidationError>, parentPath: string)
    ensures |CollectValidationIssues(errors, parentPath)| == ConstrainedNodes(errors)
    decreases errors
  {
    if |errors| > 0 {
      var field := FieldPath(parentPath, errors[0].property);
      assert errors[0] in errors;
      OneIssuePerConstrainedNode(errors[0].children, field);
      OneIssuePerConstrainedNode(errors[1..], parentPath);
    }
  }

  /** Sibling order is preserved: flattening a concatenation concatenates the flattenings. */
  lemma {:induction false} SiblingOrderPreserved(a: seq<ValidationError>, b: seq<ValidationError>, parentPath: string)
    ensures CollectValidationIssues(a + b, parentPath)
              == CollectValidationIssues(a, parentPath) + CollectValidationIssues(b, parentPath)
    decreases a
  {
    if |a| > 0 {
      assert (a + b)[0] == a[0];
      assert (a + b)[1..] == a[1..] + b;
      SiblingOrderPreserved(a[1..], b, parentPath);
    } else {
      assert a + b == b;
    }
  }

  /** Below a non-empty parent path every issue's field is that path followed by ".". */
  lemma {:induction false} FieldsExtendParentPath(errors: seq<ValidationError>, parentPath: string)
    requires parentPath != ""
    ensures forall issue | issue in CollectValidationIssues(errors, parentPath) ::
              StartsWith(issue.field, parentPath + ".")
    decreases errors
  {
    if |errors| > 0 {
      var field := FieldPath(parentPath, errors[0].property);
      assert errors[0] in errors;
      assert StartsWith(field, parentPath + ".") by {
        assert field[..|parentPath + "."|] == parentPath + ".";
      }
      FieldsExtendParentPath(errors[0].children, field);
      FieldsExtendParentPath(errors[1..], parentPath);
      forall issue | issue in CollectValidationIssues(errors[0].children, field)
        ensures StartsWith(issue.field, parentPath + ".")
      {
        assert issue.field[..|field + "."|] == field + ".";
        assert issue.field[..|parentPath + "."|] == (field + ".")[..|parentPath + "."|];
      }
    }
  }

  /** The validation pipe's `exceptionFactory`: a 400 whose body carries the flattened issues. */
  function ValidationException(errors: seq<ValidationError>): Exception<seq<ValidationIssue>> {
    HttpException(BadRequest,
                  ObjectBody(Text(ValidationMessage), Some(CollectValidationIssues(errors, ""))),
                  ValidationMessage)
  }

  /** A validation failure reaches the client as `{code: 400, message: "validation error", data: issues}`. */
  lemma ValidationFailureEnvelope(errors: seq<ValidationError>)
    ensures Catch(ValidationException(errors))
              == Sent(BadRequest, ApiResponse(BadRequest, ValidationMessage, Some(CollectValidationIssues(errors, ""))))
  {
  }

  /** `.map(trim)` */
  function TrimAll(parts: seq<string>): (r: seq<string>)
    ensures |r| == |parts|
    ensures forall i | 0 <= i < |parts| :: r[i] == Trim(parts[i])
  {
    if |parts| == 0 then [] else [Trim(parts[0])] + TrimAll(parts[1..])
  }

  /** `.filter(Boolean)` on strings. */
  function NonEmpty(parts: seq<string>): (r: seq<string>)
    ensures forall x :: x in r <==> x in parts && x != ""
  {
    if |parts| == 0 then []
    else if parts[0] == "" then NonEmpty(parts[1..])
    else [parts[0]] + NonEmpty(parts[1..])
  }

  /** `parseCorsOrigins`: split on ",", trim, drop empties; undefined is "". */
  function ParseCorsOrigins(rawValue: Option<string>): (r: seq<string>)
    ensures forall x | x in r :: x != "" && Trim(x) == x && ',' !in x
  {
    var parts := Split(rawValue.GetOr(""), ',');
    TrimmedPartsAreClean(parts);
    NonEmpty(TrimAll(parts))
  }

  /** Trimming comma-free parts leaves them trimmed and comma-free. */
  lemma TrimmedPartsAreClean(parts: seq<string>)
    requires forall i | 0 <= i < |parts| :: ',' !in parts[i]
    ensures forall x | x in TrimAll(parts) :: Trim(x) == x && ',' !in x
  {
    var trimmed := TrimAll(parts);
    forall x | x in trimmed
      ensures Trim(x) == x && ',' !in x
    {
      var i :| 0 <= i < |trimmed| && trimmed[i] == x;
      TrimIdempotent(parts[i]);
      TrimIsInfix(parts[i]);
    }
  }

  /** An origin is listed exactly when some comma-separated piece trims to it and it is not empty. */
  lemma CorsOriginMembership(rawValue: Option<string>, x: string)
    ensures x in ParseCorsOrigins(rawValue) <==>
              x != "" && exists part | part in Split(rawValue.GetOr(""), ',') :: Trim(part) == x
  {
    var parts := Split(rawValue.GetOr(""), ',');
    assert ParseCorsOrigins(rawValue) == NonEmpty(TrimAll(parts));
    InTrimAll(parts, x);
  }

  /** A string is among the trimmed pieces exactly when some piece trims to it. */
  lemma InTrimAll(parts: seq<string>, x: string)
    ensures x in TrimAll(parts) <==> exists part | part in parts :: Trim(part) == x
  {
    var trimmed := TrimAll(parts);
    if x in trimmed {
      var i :| 0 <= i < |trimmed| && trimmed[i] == x;
      assert parts[i] in parts;
    }
    if exists part | part in parts :: Trim(part) == x {
      var part :| part in parts && Trim(part) == x;
      var i :| 0 <= i < |parts| && parts[i] == part;
      assert trimmed[i] == x;
    }
  }

  /** Every character of a trimmed string occurs in the original. */
  lemma TrimIsInfix(s: string)
    ensures forall c | c in Trim(s) :: c in s
  {
    var r := Trim(s);
    var i, j :| 0 <= i <= j <= |s| && r == s[i..j];
    forall c | c in r ensures c in s {
      var k :| 0 <= k < |r| && r[k] == c;
      assert s[i + k] == c;
    }
  }

  /** An unset `CORS_ORIGIN` allows no browser origin. */
  lemma UnsetOriginListIsEmpty()
    ensures ParseCorsOrigins(None) == []
  {
    assert Split("", ',') == [""] by {
      assert IndexOf("", ',') == -1;
    }
    assert Trim("") == "";
  }

  /**
   * The CORS origin callback: a request without an origin, or from a listed
   * origin, is allowed; any other origin is refused.
   */
  function AllowOrigin(origin: Option<string>, whitelist: seq<string>): (r: Result<bool, string>)
    ensures r.Ok? ==> r.value
    ensures r.Ok? <==> origin.None? || origin.value == "" || origin.value in whitelist
    ensures r.Err? ==> r.error == "CORS origin not allowed: " + origin.value
  {
    if origin.None? || origin.value == "" then Ok(true)
    else if origin.value in whitelist then Ok(true)
    else Err("CORS origin not allowed: " + origin.value)
  }
}
