/** `RegisterSerializer.validate_password`: the password rules applied at
    registration. */
module RegisterSerializer {
  import opened Wrappers
  import opened Text

  /** `serializers.ValidationError(message)` */
  datatype ValidationError = ValidationError(message: string)

  const MinPasswordLength: nat := 8

  /** `any(p(c) for c in s)`, scanning from the left. */
  function Any(s: string, p: char -> bool): (r: bool)
    ensures r <==> exists i :: 0 <= i < |s| && p(s[i])
  {
    if s == [] then false
    else if p(s[0]) then true
    else
      assert forall i :: 1 <= i < |s| ==> s[i] == s[1..][i - 1];
      Any(s[1..], p)
  }

  /** The rule the validator enforces, stated on its own: long enough, with
      an upper-case letter, a lower-case letter and a digit somewhere. */
  predicate Strong(value: string)
  {
    |value| >= MinPasswordLength
    && (exists i :: 0 <= i < |value| && IsUpper(value[i]))
    && (exists i :: 0 <= i < |value| && IsLower(value[i]))
    && (exists i :: 0 <= i < |value| && IsDigit(value[i]))
  }

  /** `validate_password(value)`: the checks run in order and the first that
      fails decides the message; a password that passes all four is returned
      unchanged. */
  function ValidatePassword(value: string): (r: Result<string, ValidationError>)
    ensures r.Success? <==> Strong(value)
    ensures r.Success? ==> r.value == value
    ensures |value| < MinPasswordLength ==> r == Failure(ValidationError("Minimum 8 characters"))
    ensures |value| >= MinPasswordLength && !(exists i :: 0 <= i < |value| && IsUpper(value[i]))
            ==> r == Failure(ValidationError("Must contain uppercase"))
    ensures |value| >= MinPasswordLength && (exists i :: 0 <= i < |value| && IsUpper(value[i]))
            && !(exists i :: 0 <= i < |value| && IsLower(value[i]))
            ==> r == Failure(ValidationError("Must contain lowercase"))
    ensures |value| >= MinPasswordLength && (exists i :: 0 <= i < |value| && IsUpper(value[i]))
            && (exists i :: 0 <= i < |value| && IsLower(value[i]))
            && !(exists i :: 0 <= i < |value| && IsDigit(value[i]))
            ==> r == Failure(ValidationError("Must contain number"))
  {
    if |value| < MinPasswordLength then Failure(ValidationError("Minimum 8 characters"))
    else if !Any(value, IsUpper) then Failure(ValidationError("Must contain uppercase"))
    else if !Any(value, IsLower) then Failure(ValidationError("Must contain lowercase"))
    else if !Any(value, IsDigit) then Failure(ValidationError("Must contain number"))
    else Success(value)
  }

  /** Only the multiset of characters matters: any rearrangement of a
      password gets the same verdict and the same message. */
  lemma {:induction false} VerdictIgnoresOrder(a: string, b: string)
    requires multiset(a) == multiset(b)
    ensures ValidatePassword(a).Success? <==> ValidatePassword(b).Success?
    ensures ValidatePassword(a).Failure? ==> ValidatePassword(a) == ValidatePassword(b)
  {
    assert |a| == |multiset(a)| == |multiset(b)| == |b|;
    SameClassPresence(a, b, IsUpper);
    SameClassPresence(a, b, IsLower);
    SameClassPresence(a, b, IsDigit);
  }

  lemma SameClassPresence(a: string, b: string, p: char -> bool)
    requires multiset(a) == multiset(b)
    ensures (exists i :: 0 <= i < |a| && p(a[i])) <==> (exists i :: 0 <= i < |b| && p(b[i]))
  {
    if i :| 0 <= i < |a| && p(a[i]) {
      assert a[i] in multiset(b);
      var j :| 0 <= j < |b| && b[j] == a[i];
    }
    if i :| 0 <= i < |b| && p(b[i]) {
      assert b[i] in multiset(a);
      var j :| 0 <= j < |a| && a[j] == b[i];
    }
  }

  /** Appending characters never turns an accepted password into a
      rejected one. */
  lemma AcceptedStaysAccepted(value: string, extra: string)
    requires ValidatePassword(value).Success?
    ensures ValidatePassword(value + extra).Success?
  {
    var s := value + extra;
    var u :| 0 <= u < |value| && IsUpper(value[u]);
    var l :| 0 <= l < |value| && IsLower(value[l]);
    var d :| 0 <= d < |value| && IsDigit(value[d]);
    assert s[u] == value[u] && s[l] == value[l] && s[d] == value[d];
  }
}
