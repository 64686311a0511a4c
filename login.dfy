/**
 * The login form of frontend/src/Login.jsx: a submit clears the error, refuses
 * empty fields, and otherwise shows the loading state until a timer builds
 * the user record, whose name is the part of the email before the first `@`.
 */
module Login {
  import opened Wrappers
  import Text

  const FillInAllFields: string := "Please fill in all fields"

  /** `email.split('@')[0]`: the text before the first `@`, or all of it when there is none. */
  function NameOf(email: string): (name: string)
    ensures '@' !in name
    ensures Text.StartsWith(email, name)
    ensures name == email || email[|name|] == '@'
  {
    if email == [] || email[0] == '@' then []
    else [email[0]] + NameOf(email[1..])
  }

  datatype User = User(email: string, name: string, id: string)

  /** The record the timer callback builds; `stamp` stands for `Date.now()`. */
  function MakeUser(email: string, stamp: nat): (u: User)
    ensures u.email == email
    ensures '@' !in u.name && Text.StartsWith(email, u.name)
    ensures u.name == email || email[|u.name|] == '@'
    ensures u.id == Text.NatToString(stamp)
  {
    User(email, NameOf(email), Text.NatToString(stamp))
  }

  /** The validation error a submit reports, if any: both fields must be non-empty. */
  function SubmitError(email: string, password: string): (r: Option<string>)
    ensures r.Some? <==> email == [] || password == []
    ensures r.Some? ==> r.value == FillInAllFields
  {
    if email == [] || password == [] then Some(FillInAllFields) else None
  }

  /** The form's state fields. */
  class LoginForm {
    var email: string
    var password: string
    var error: string
    var isLoading: bool

    constructor ()
      ensures email == [] && password == [] && error == [] && !isLoading
    {
      email, password, error, isLoading := [], [], [], false;
    }

    /**
     * `handleSubmit`: clears the error, then either reports the empty field
     * (no loading state, no user) or enters the loading state and hands the
     * email to the pending timer.
     */
    method HandleSubmit() returns (pending: Option<string>)
      modifies this
      ensures email == old(email) && password == old(password)
      ensures pending.None? <==> (email == [] || password == [])
      ensures pending.None? ==> error == FillInAllFields && isLoading == old(isLoading)
      ensures pending.Some? ==> pending.value == email && error == [] && isLoading
    {
      error := [];
      var e := SubmitError(email, password);
      if e.Some? {
        error := e.value;
        return None;
      }
      isLoading := true;
      pending := Some(email);
    }

    /** The timer callback: builds the user from the email captured at submit and leaves the loading state. */
    method FinishLogin(captured: string, stamp: nat) returns (u: User)
      modifies this`isLoading
      ensures u == MakeUser(captured, stamp) && !isLoading
    {
      u := MakeUser(captured, stamp);
      isLoading := false;
    }
  }

  /** An email without `@` is its own display name. */
  lemma NameWithoutAt(email: string)
    requires '@' !in email
    ensures NameOf(email) == email
  {
  }

  /** The name of `local@domain` is `local` when `local` has no `@`. */
  lemma {:induction false} NameOfAddress(local: string, domain: string)
    requires '@' !in local
    ensures NameOf(local + "@" + domain) == local
    decreases |local|
  {
    var e := local + "@" + domain;
    if local == [] {
      assert e[0] == '@';
    } else {
      assert e[0] == local[0] && e[1..] == local[1..] + "@" + domain;
      NameOfAddress(local[1..], domain);
      assert [local[0]] + local[1..] == local;
    }
  }
}
