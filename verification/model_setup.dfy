/** The set-up around the training loop: the arguments `Train.initialise_model` hands to ConvNP and
    records, and the name under which `Train.train_model` saves its files. */
module ModelSetup {
  import opened Wrappers
  import opened Text
  import opened Dict
  import opened TrainLoop

  /** `CONVNP_KWARGS_DEFAULT`, each value written as its Python literal. */
  const DefaultKwargs: Kwargs := [
    Entry("unet_channels", "(64, 64, 64, 64)"),
    Entry("likelihood", "gnp"),
    Entry("internal_density", "500")
  ]

  /** `initialise_model(**convnp_kwargs)` as written: `convnp_kwargs` is the dictionary of keyword
      arguments, empty when none are given and never `None`, so the defaults are never applied.
      `model(self.val_tasks[0])` raises IndexError when there are no validation tasks. The result is
      what reaches ConvNP and `self.convnp_kwargs`. */
  function InitialiseModelAsWritten(given: Kwargs, valTasks: nat): (r: Outcome<Kwargs>)
    ensures r.Failure? <==> valTasks == 0
    ensures r.Failure? ==> r.error == IndexError
    ensures r.Success? ==> forall k :: Get(r.value, k) == Get(given, k)
  {
    if valTasks == 0 then Failure(IndexError) else Success(given)
  }

  /** `initialise_model` as its documentation describes it: the defaults stand in when no keyword
      argument is given. */
  function InitialiseModel(given: Kwargs, valTasks: nat): (r: Outcome<Kwargs>)
    ensures r.Failure? <==> valTasks == 0
    ensures r.Failure? ==> r.error == IndexError
    ensures r.Success? && |given| > 0 ==> forall k :: Get(r.value, k) == Get(given, k)
    ensures r.Success? && |given| == 0 ==> forall k :: Get(r.value, k) == Get(DefaultKwargs, k)
  {
    if valTasks == 0 then Failure(IndexError)
    else if |given| == 0 then Success(DefaultKwargs)
    else Success(given)
  }

  /** Called with no keyword arguments, the code as written passes and records no arguments at all,
      while the documented behaviour passes the defaults, such as the `gnp` likelihood. */
  lemma AsWrittenSkipsDefaults(valTasks: nat)
    requires valTasks > 0
    ensures InitialiseModelAsWritten([], valTasks) == Success([])
    ensures Get(InitialiseModelAsWritten([], valTasks).value, "likelihood") == None
    ensures Get(InitialiseModel([], valTasks).value, "likelihood") == Some("gnp")
    ensures Get(InitialiseModel([], valTasks).value, "internal_density") == Some("500")
  {
    assert DefaultKwargs[1].key == "likelihood";
    assert DefaultKwargs[0].key != "likelihood";
    assert DefaultKwargs[0].key != "internal_density";
    assert DefaultKwargs[1].key != "internal_density";
  }

  /** The saved model's name: `model_<seconds>` for the name 'default', then `<prefix>_` in front
      when a prefix is given. `seconds` is `round(time.time())`, a parameter here. */
  function ModelName(name: string, prefix: Option<string>, seconds: int): (r: string)
    ensures prefix.Some? ==> StartsWith(r, prefix.value + "_")
    ensures name != "default" ==> EndsWith(r, name)
    ensures name == "default" ==> EndsWith(r, "model_" + IntToString(seconds))
    ensures |r| == (if prefix.Some? then |prefix.value| + 1 else 0)
                   + (if name == "default" then 6 + |IntToString(seconds)| else |name|)
  {
    var base := if name == "default" then "model_" + IntToString(seconds) else name;
    var r := if prefix.Some? then prefix.value + "_" + base else base;
    assert prefix.Some? ==> r[..|prefix.value + "_"|] == prefix.value + "_";
    assert r[|r| - |base|..] == base;
    r
  }

  /** Default names made at different seconds differ, whatever the prefix. */
  lemma DefaultNamesDiffer(prefix: Option<string>, a: int, b: int)
    requires a != b
    ensures ModelName("default", prefix, a) != ModelName("default", prefix, b)
  {
    var na, nb := ModelName("default", prefix, a), ModelName("default", prefix, b);
    var sa, sb := IntToString(a), IntToString(b);
    var lead := if prefix.Some? then prefix.value + "_model_" else "model_";
    assert na == lead + sa && nb == lead + sb;
    if na == nb {
      assert sa == na[|lead|..] == nb[|lead|..] == sb;
      IntToStringRoundTrip(a);
      IntToStringRoundTrip(b);
    }
  }
}
