/** The two ways the scraper's loops gather results: keeping the values a
    step produced and skipping the `None`s, or routing each step's value to
    the cars and its exception to the error list. */
module Collect {
  import opened Wrappers

  /** The values of the `Some` outcomes, in order. */
  function Somes<T>(os: seq<Option<T>>): (r: seq<T>)
    ensures |r| <= |os|
    ensures forall x :: x in r ==> Some(x) in os
    decreases |os|
  {
    if os == [] then []
    else
      var rest := Somes(os[1..]);
      assert forall k :: 1 <= k < |os| ==> os[k] == os[1..][k - 1];
      if os[0].Some? then [os[0].value] + rest else rest
  }

  lemma {:induction false} SomesComplete<T>(os: seq<Option<T>>, i: nat)
    requires i < |os| && os[i].Some?
    ensures os[i].value in Somes(os)
    decreases |os|
  {
    if i > 0 {
      SomesComplete(os[1..], i - 1);
      assert os[1..][i - 1] == os[i];
    }
  }

  /** Nothing is skipped exactly when every outcome is a value. */
  lemma {:induction false} SomesAll<T>(os: seq<Option<T>>)
    ensures |Somes(os)| == |os| <==> forall i :: 0 <= i < |os| ==> os[i].Some?
    decreases |os|
  {
    if os != [] {
      SomesAll(os[1..]);
      assert forall i :: 1 <= i < |os| ==> os[i] == os[1..][i - 1];
    }
  }

  lemma {:induction false} SomesAppend<T>(a: seq<Option<T>>, b: seq<Option<T>>)
    ensures Somes(a + b) == Somes(a) + Somes(b)
    decreases |a|
  {
    if a == [] {
      assert a + b == b;
    } else {
      assert (a + b)[0] == a[0];
      assert (a + b)[1..] == a[1..] + b;
      SomesAppend(a[1..], b);
    }
  }

  /** The values of the successful steps, in order. */
  function Values<A, B>(rs: seq<Result<A, B>>): (r: seq<A>)
    ensures |r| <= |rs|
    ensures forall x :: x in r ==> Success(x) in rs
    decreases |rs|
  {
    if rs == [] then []
    else
      var rest := Values(rs[1..]);
      assert forall k :: 1 <= k < |rs| ==> rs[k] == rs[1..][k - 1];
      if rs[0].Success? then [rs[0].value] + rest else rest
  }

  /** The errors of the failed steps, in order. */
  function Errors<A, B>(rs: seq<Result<A, B>>): (r: seq<B>)
    ensures |r| + |Values(rs)| == |rs|
    ensures forall e :: e in r ==> Failure(e) in rs
    decreases |rs|
  {
    if rs == [] then []
    else
      var rest := Errors(rs[1..]);
      assert forall k :: 1 <= k < |rs| ==> rs[k] == rs[1..][k - 1];
      if rs[0].Failure? then [rs[0].error] + rest else rest
  }

  lemma {:induction false} SplitComplete<A, B>(rs: seq<Result<A, B>>, i: nat)
    requires i < |rs|
    ensures rs[i].Success? ==> rs[i].value in Values(rs)
    ensures rs[i].Failure? ==> rs[i].error in Errors(rs)
    decreases |rs|
  {
    if i > 0 {
      SplitComplete(rs[1..], i - 1);
      assert rs[1..][i - 1] == rs[i];
    }
  }

  /** No error is reported exactly when every step succeeded. */
  lemma {:induction false} NoErrors<A, B>(rs: seq<Result<A, B>>)
    ensures Errors(rs) == [] <==> forall i :: 0 <= i < |rs| ==> rs[i].Success?
    decreases |rs|
  {
    if rs != [] {
      NoErrors(rs[1..]);
      assert forall i :: 1 <= i < |rs| ==> rs[i] == rs[1..][i - 1];
    }
  }

  lemma {:induction false} ValuesAppend<A, B>(a: seq<Result<A, B>>, b: seq<Result<A, B>>)
    ensures Values(a + b) == Values(a) + Values(b)
    decreases |a|
  {
    if a == [] {
      assert a + b == b;
    } else {
      assert (a + b)[0] == a[0];
      assert (a + b)[1..] == a[1..] + b;
      ValuesAppend(a[1..], b);
    }
  }

  lemma {:induction false} ErrorsAppend<A, B>(a: seq<Result<A, B>>, b: seq<Result<A, B>>)
    ensures Errors(a + b) == Errors(a) + Errors(b)
    decreases |a|
  {
    if a == [] {
      assert a + b == b;
    } else {
      assert (a + b)[0] == a[0];
      assert (a + b)[1..] == a[1..] + b;
      ErrorsAppend(a[1..], b);
    }
  }
}
