/** Status codes, wrappers, typed values and constants shared by the request generator. */
module Common {

  /** The engine's OB_* status codes that the generator produces or passes through, by name. */
  datatype Err =
    | Success          // OB_SUCCESS
    | InvalidArgument  // OB_INVALID_ARGUMENT
    | NotSupported     // OB_NOT_SUPPORTED
    | IterEnd          // OB_ITER_END: normal end of an iteration
    | ErrUnexpected    // OB_ERR_UNEXPECTED
    | EntryNotExist    // OB_ENTRY_NOT_EXIST
    | SizeOverflow     // OB_SIZE_OVERFLOW
    | SchemaError      // OB_SCHEMA_ERROR
    | Other(code: int) // any other code a collaborator reports

  /** A status that is not OB_SUCCESS. */
  type Failure = e: Err | e != Success witness InvalidArgument

  datatype Option<+T> = None | Some(value: T)

  /** A value or the failure that prevented computing it. */
  datatype Result<+T> = Ok(value: T) | Fail(error: Failure) {
    /** The status code a C++ caller would see. */
    function Status(): Err {
      if Ok? then Success else error
    }
  }

  /**
   * The loop shape `for (...; OB_SUCCESS == err && ...; ...)`: the values of the steps up to the
   * first failing one, and that step's status (Success when none fails).
   */
  function UntilFailure<T>(rs: seq<Result<T>>): (r: (Err, seq<T>))
    ensures |r.1| <= |rs|
    ensures r.0 == Success ==> |r.1| == |rs|
  {
    if rs == [] then (Success, [])
    else
      var prev := UntilFailure(rs[..|rs| - 1]);
      if prev.0 != Success then prev
      else
        match rs[|rs| - 1]
        case Fail(e) => (e, prev.1)
        case Ok(v) => (Success, prev.1 + [v])
  }

  /**
   * The fold keeps the value of every step before the first failure, reports that failure, and
   * succeeds exactly when every step does.
   */
  lemma {:induction false} UntilFailureStops<T>(rs: seq<Result<T>>)
    ensures var r := UntilFailure(rs);
      (forall j :: 0 <= j < |r.1| ==> rs[j] == Ok(r.1[j])) &&
      (r.0 != Success ==> |r.1| < |rs| && rs[|r.1|] == Fail(r.0)) &&
      (r.0 == Success <==> forall j :: 0 <= j < |rs| ==> rs[j].Ok?)
  {
    if rs != [] {
      var init := rs[..|rs| - 1];
      UntilFailureStops(init);
      var prev := UntilFailure(init);
      if prev.0 == Success {
        match rs[|rs| - 1]
        case Fail(e) =>
        case Ok(v) =>
          var more := prev.1 + [v];
          forall j | 0 <= j < |more|
            ensures rs[j] == Ok(more[j])
          {
            if j < |prev.1| {
              assert rs[j] == init[j];
            }
          }
      } else {
        assert rs[|prev.1|] == init[|prev.1|];
      }
    }
  }

  /** Steps after the first failure change nothing. */
  lemma {:induction false} UntilFailureFrozen<T>(rs: seq<Result<T>>, m: nat)
    requires m <= |rs| && UntilFailure(rs[..m]).0 != Success
    ensures UntilFailure(rs) == UntilFailure(rs[..m])
    decreases |rs|
  {
    if |rs| > m {
      assert rs[..|rs| - 1][..m] == rs[..m];
      UntilFailureFrozen(rs[..|rs| - 1], m);
    } else {
      assert rs[..m] == rs;
    }
  }

  /** Appending one step to a run of steps. */
  lemma UntilFailureSnoc<T>(rs: seq<Result<T>>, x: Result<T>)
    ensures var prev := UntilFailure(rs);
      UntilFailure(rs + [x]) ==
        if prev.0 != Success then prev
        else if x.Fail? then (x.error, prev.1)
        else (Success, prev.1 + [x.value])
  {
    assert (rs + [x])[..|rs|] == rs;
  }

  /** One more step of such a loop, while no step has failed yet. */
  lemma UntilFailureStep<T>(rs: seq<Result<T>>, k: nat)
    requires k < |rs| && UntilFailure(rs[..k]).0 == Success
    ensures UntilFailure(rs[..k + 1]) ==
      (rs[k].Status(), UntilFailure(rs[..k]).1 + (if rs[k].Ok? then [rs[k].value] else []))
  {
    assert rs[..k + 1] == rs[..k] + [rs[k]];
    UntilFailureSnoc(rs[..k], rs[k]);
    assert UntilFailure(rs[..k]).1 + [] == UntilFailure(rs[..k]).1;
  }

  /** ObObjType: the storage engine's column and value types. */
  datatype ObjType =
    | NullType | IntType | FloatType | DoubleType | DateTimeType | PreciseDateTimeType
    | VarcharType | SeqType | CreateTimeType | ModifyTimeType | ExtendType | BoolType
    | DecimalType

  /** ObObj: a type tag plus the payload the generator reads back (an int or a string). */
  datatype Obj = Obj(ty: ObjType, intValue: int, strValue: string)

  /** A default-constructed ObObj. */
  const NullObj := Obj(NullType, 0, "")

  /** An ObObj on which only set_type has been called. */
  function TypedObj(ty: ObjType): (o: Obj)
    ensures o.ty == ty
  {
    Obj(ty, 0, "")
  }

  /** ObRowkey: a sequence of values, or the absolute lower or upper bound marker. */
  datatype Rowkey = Key(objs: seq<Obj>) | MinRow | MaxRow

  /** OB_INVALID_ID (UINT64_MAX). */
  const InvalidId: nat := 0xFFFF_FFFF_FFFF_FFFF

  /** OB_APP_MIN_TABLE_ID: the first id of the application (user) table window. */
  const AppMinTableId: nat := 1000

  /** Width of the application table window used when choosing "any" table. */
  const AppTableWindow: nat := 10000

  /** SSTableID::START_MAJOR_VERSION, the version floor of generated multi-get requests. */
  const StartMajorVersion: int := 2

  /** Retry budget of the column rejection sampler. */
  const MaxRetry: nat := 1000

  /** Result-count limit of generated scans. */
  const ScanLimit: int := 200

  /** Every outcome's items appended in order; the status of the last one (success when there is none). */
  function AllAppended<T>(os: seq<(Err, seq<T>)>): (r: (Err, seq<T>))
    ensures os != [] ==> r.0 == os[|os| - 1].0
    ensures os == [] ==> r == (Success, [])
  {
    if os == [] then (Success, [])
    else
      var prev := AllAppended(os[..|os| - 1]);
      (os[|os| - 1].0, prev.1 + os[|os| - 1].1)
  }

  /** The outcomes' items appended in order up to and including the first failing one, with its status. */
  function AppendedUntilFailure<T>(os: seq<(Err, seq<T>)>): (r: (Err, seq<T>))
    ensures os == [] ==> r == (Success, [])
  {
    if os == [] then (Success, [])
    else
      var prev := AppendedUntilFailure(os[..|os| - 1]);
      if prev.0 != Success then prev
      else (os[|os| - 1].0, prev.1 + os[|os| - 1].1)
  }

  /**
   * Stopping at the first failure succeeds exactly when every outcome does; a failure is that of
   * the first failing outcome, with the items of all outcomes up to it, as if the run had ended there.
   */
  lemma {:induction false} AppendedUntilFailureCharacterized<T>(os: seq<(Err, seq<T>)>)
    ensures var r := AppendedUntilFailure(os);
      (r.0 == Success <==> forall j :: 0 <= j < |os| ==> os[j].0 == Success) &&
      (r.0 == Success ==> r == AllAppended(os)) &&
      (r.0 != Success ==> exists f :: 0 <= f < |os| && os[f].0 == r.0 &&
                            (forall j :: 0 <= j < f ==> os[j].0 == Success) &&
                            r == AllAppended(os[..f + 1]))
  {
    if os != [] {
      var init := os[..|os| - 1];
      AppendedUntilFailureCharacterized(init);
      assert forall j :: 0 <= j < |init| ==> os[j] == init[j];
      var prev := AppendedUntilFailure(init);
      if prev.0 != Success {
        var f :| 0 <= f < |init| && init[f].0 == prev.0 && (forall j :: 0 <= j < f ==> init[j].0 == Success) &&
                 prev == AllAppended(init[..f + 1]);
        assert init[..f + 1] == os[..f + 1];
      } else {
        assert os[..|os|] == os;
      }
    }
  }

  /** Outcomes after the first failure change nothing. */
  lemma {:induction false} AppendedUntilFailureFrozen<T>(os: seq<(Err, seq<T>)>, m: nat)
    requires m <= |os| && AppendedUntilFailure(os[..m]).0 != Success
    ensures AppendedUntilFailure(os) == AppendedUntilFailure(os[..m])
    decreases |os|
  {
    if |os| > m {
      assert os[..|os| - 1][..m] == os[..m];
      AppendedUntilFailureFrozen(os[..|os| - 1], m);
    } else {
      assert os[..m] == os;
    }
  }

  /** While no outcome has failed, one more outcome adds its items and its status. */
  lemma AppendedUntilFailureStep<T>(os: seq<(Err, seq<T>)>, k: nat)
    requires k < |os| && AppendedUntilFailure(os[..k]).0 == Success
    ensures AppendedUntilFailure(os[..k + 1]) == (os[k].0, AppendedUntilFailure(os[..k]).1 + os[k].1)
  {
    assert os[..k + 1][..k] == os[..k];
  }

  /** Appending every outcome: one more outcome adds its items and replaces the status. */
  lemma AllAppendedStep<T>(os: seq<(Err, seq<T>)>, k: nat)
    requires k < |os|
    ensures AllAppended(os[..k + 1]) == (os[k].0, AllAppended(os[..k]).1 + os[k].1)
  {
    assert os[..k + 1][..k] == os[..k];
  }

  /** A failure followed by a success at the end: appending everything reports success, stopping at the failure does not. */
  lemma AllAppendedMasksFailure<T>(os: seq<(Err, seq<T>)>, f: nat)
    requires f < |os| - 1 && os[f].0 != Success && os[|os| - 1].0 == Success
    ensures AllAppended(os).0 == Success
    ensures AppendedUntilFailure(os).0 != Success
  {
    AppendedUntilFailureCharacterized(os);
  }

  /** Stopping at the first failure succeeds exactly when every outcome does, and then appends everything. */
  lemma AppendedUntilFailureSucceeds<T>(os: seq<(Err, seq<T>)>)
    ensures AppendedUntilFailure(os).0 == Success <==> forall j :: 0 <= j < |os| ==> os[j].0 == Success
    ensures AppendedUntilFailure(os).0 == Success ==> AppendedUntilFailure(os) == AllAppended(os)
  {
    AppendedUntilFailureCharacterized(os);
  }
}
