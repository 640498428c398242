/** The argument handling of the `map_neuronlist` decorator: where the neuron
    input is found, which keyword arguments are shared by every call and
    which are split up per neuron (`can_zip` and `must_zip`), and the list of
    calls the wrapper makes, one per neuron in list order. The wrapped
    function itself is not run here: the result is the plan of calls. */
module NeuronMap {

  import opened Errors

  /** The Python values the wrapper looks at. A neuron list is given by the
      ids of its neurons. */
  datatype Value =
    | NoneV
    | BoolV(b: bool)
    | IntV(i: int)
    | StrV(s: string)
    | ListV(items: seq<Value>)
    | NeuronV(id: nat)
    | NeuronListV(ids: seq<nat>)

  /** Keyword arguments. */
  type Kwargs = map<string, Value>

  /** `is_iterable`: lists and neuron lists; strings count as single values. */
  predicate IsIterable(v: Value) {
    v.ListV? || v.NeuronListV?
  }

  /** `make_iterable`: the members of an iterable, a one-element list of
      anything else. */
  function MakeIterable(v: Value): (vs: seq<Value>)
    ensures !IsIterable(v) ==> vs == [v]
    ensures v.ListV? ==> vs == v.items
    ensures v.NeuronListV? ==> |vs| == |v.ids| && forall i :: 0 <= i < |vs| ==> vs[i] == NeuronV(v.ids[i])
  {
    match v
    case ListV(items) => items
    case NeuronListV(ids) => seq(|ids|, i requires 0 <= i < |ids| => NeuronV(ids[i]))
    case _ => [v]
  }

  /** Python truthiness of a value. */
  predicate Truthy(v: Value) {
    match v
    case NoneV => false
    case BoolV(b) => b
    case IntV(i) => i != 0
    case StrV(s) => |s| > 0
    case ListV(items) => |items| > 0
    case NeuronV(_) => true
    case NeuronListV(ids) => |ids| > 0
  }

  /** The keyword arguments searched, in order, when there is no positional
      argument. */
  const NeuronKeys: seq<string> := ["x", "neuron", "neurons"]

  /** Where the neuron input was found: the first positional argument or the
      keyword `NeuronKeys[index]`. */
  datatype Source = Positional | Keyword(index: nat)

  datatype Located = Located(nl: Value, source: Source)

  /** Position of the first of `keys` from `i` on that is present. */
  function FirstKey(keys: seq<string>, kwargs: Kwargs, i: nat): (r: Option<nat>)
    requires i <= |keys|
    ensures r.Some? ==> i <= r.value < |keys| && keys[r.value] in kwargs
                        && forall j :: i <= j < r.value ==> keys[j] !in kwargs
    ensures r.None? ==> forall j :: i <= j < |keys| ==> keys[j] !in kwargs
    decreases |keys| - i
  {
    if i == |keys| then None
    else if keys[i] in kwargs then Some(i)
    else FirstKey(keys, kwargs, i + 1)
  }

  /** The neuron input: the first positional argument when there is one,
      otherwise the value of the first of `x`, `neuron`, `neurons` present;
      `ValueError` when that is `None` or nothing is found. */
  function Locate(args: seq<Value>, kwargs: Kwargs): (r: Result<Located>)
    ensures r.Err? ==> r.error == ValueError
    ensures r.Ok? ==> !r.value.nl.NoneV?
    ensures |args| > 0 ==> (r.Ok? <==> !args[0].NoneV?)
    ensures |args| > 0 && r.Ok? ==> r.value == Located(args[0], Positional)
    ensures |args| == 0 && r.Ok? ==>
              r.value.source.Keyword? && r.value.source.index < |NeuronKeys|
              && NeuronKeys[r.value.source.index] in kwargs
              && kwargs[NeuronKeys[r.value.source.index]] == r.value.nl
              && forall j :: 0 <= j < r.value.source.index ==> NeuronKeys[j] !in kwargs
    ensures |args| == 0 && (forall j :: 0 <= j < |NeuronKeys| ==> NeuronKeys[j] !in kwargs) ==> r.Err?
    ensures |args| == 0 && FirstKey(NeuronKeys, kwargs, 0).Some? ==>
              (r.Ok? <==> !kwargs[NeuronKeys[FirstKey(NeuronKeys, kwargs, 0).value]].NoneV?)
  {
    if |args| > 0 then
      if args[0].NoneV? then Err(ValueError) else Ok(Located(args[0], Positional))
    else
      match FirstKey(NeuronKeys, kwargs, 0)
      case None => Err(ValueError)
      case Some(k) =>
        var nl := kwargs[NeuronKeys[k]];
        if nl.NoneV? then Err(ValueError) else Ok(Located(nl, Keyword(k)))
  }

  /** `can_zip` arguments are split up only when they are iterable;
      `must_zip` arguments always are, after `make_iterable`. */
  datatype ZipMode = CanZip | MustZip

  /** Whether a present argument is split up under `mode`: `None` is always
      skipped. */
  predicate Zips(mode: ZipMode, v: Value) {
    !v.NoneV? && (mode.MustZip? || IsIterable(v))
  }

  /** Whether argument `k` is among `keys` and split up. */
  predicate IsZipKey(mode: ZipMode, keys: seq<string>, kwargs: Kwargs, k: string) {
    k in keys && k in kwargs && Zips(mode, kwargs[k])
  }

  /** The arguments among `keys` that are split up. */
  function ZipKeys(mode: ZipMode, keys: seq<string>, kwargs: Kwargs): set<string>
  {
    set k | k in keys && k in kwargs && Zips(mode, kwargs[k])
  }

  /** Whether every argument to split up has exactly `n` values. */
  ghost predicate ZipLengthsMatch(mode: ZipMode, keys: seq<string>, n: nat, kwargs: Kwargs) {
    forall k :: IsZipKey(mode, keys, kwargs, k) ==> |MakeIterable(kwargs[k])| == n
  }

  /** The arguments split up by the loop over `keys` are the first key when
      it is split up, and those split up by the rest of the loop over what is
      left. */
  lemma ZipKeyStep(mode: ZipMode, keys: seq<string>, kwargs: Kwargs)
    requires |keys| > 0
    ensures var p := keys[0];
            && (p !in kwargs || !Zips(mode, kwargs[p]) ==>
                  forall k :: IsZipKey(mode, keys, kwargs, k) <==> IsZipKey(mode, keys[1..], kwargs, k))
            && (p in kwargs && Zips(mode, kwargs[p]) ==>
                  forall k :: IsZipKey(mode, keys, kwargs, k) <==> k == p || IsZipKey(mode, keys[1..], kwargs - {p}, k))
  {
    assert keys == [keys[0]] + keys[1..];
    assert forall k :: k in keys <==> k == keys[0] || k in keys[1..];
  }

  /** The keyword arguments left for every call, and one map of split-up
      arguments per neuron. */
  datatype Zipped = Zipped(shared: Kwargs, perCall: seq<Kwargs>)

  /** The loop over `keys`: an argument to split up is removed from the
      shared arguments and its value `i` goes to call `i`; a length other
      than `n` raises `ValueError`. */
  function ZipFrom(mode: ZipMode, keys: seq<string>, n: nat, shared: Kwargs, per: seq<Kwargs>): (r: Result<Zipped>)
    requires |per| == n
    ensures r.Err? ==> r.error == ValueError
    ensures r.Ok? ==> |r.value.perCall| == n
    decreases |keys|
  {
    if |keys| == 0 then Ok(Zipped(shared, per))
    else
      var p := keys[0];
      if p !in shared || !Zips(mode, shared[p]) then
        ZipFrom(mode, keys[1..], n, shared, per)
      else
        var vs := MakeIterable(shared[p]);
        if |vs| != n then Err(ValueError)
        else
          var per' := seq(n, i requires 0 <= i < n => per[i][p := vs[i]]);
          ZipFrom(mode, keys[1..], n, shared - {p}, per')
  }

  /** What the loop computes: it raises exactly when an argument to split
      up has a length other than `n`; otherwise the shared arguments lose
      exactly the arguments split up, and call `i` gains value `i` of each of
      them. */
  ghost predicate ZipSpec(mode: ZipMode, keys: seq<string>, n: nat, shared: Kwargs, per: seq<Kwargs>,
                          r: Result<Zipped>)
    requires |per| == n
  {
    && (r.Ok? <==> ZipLengthsMatch(mode, keys, n, shared))
    && (r.Ok? ==> |r.value.perCall| == n)
    && (r.Ok? ==> forall k :: k in r.value.shared <==> k in shared && !IsZipKey(mode, keys, shared, k))
    && (r.Ok? ==> forall k :: k in r.value.shared ==> r.value.shared[k] == shared[k])
    && (r.Ok? ==> forall i, k :: 0 <= i < n ==>
                    (k in r.value.perCall[i] <==> k in per[i] || IsZipKey(mode, keys, shared, k)))
    && (r.Ok? ==> forall i, k :: 0 <= i < n && IsZipKey(mode, keys, shared, k) ==>
                    r.value.perCall[i][k] == MakeIterable(shared[k])[i])
    && (r.Ok? ==> forall i, k :: 0 <= i < n && k in per[i] && !IsZipKey(mode, keys, shared, k) ==>
                    r.value.perCall[i][k] == per[i][k])
  }

  /** A key that is not split up leaves what the rest of the loop computes
      as it is. */
  lemma ZipSkipSpec(mode: ZipMode, keys: seq<string>, n: nat, shared: Kwargs, per: seq<Kwargs>,
                    r: Result<Zipped>)
    requires |per| == n && |keys| > 0
    requires keys[0] !in shared || !Zips(mode, shared[keys[0]])
    requires ZipSpec(mode, keys[1..], n, shared, per, r)
    ensures ZipSpec(mode, keys, n, shared, per, r)
  {
    ZipKeyStep(mode, keys, shared);
    assert ZipLengthsMatch(mode, keys, n, shared) <==> ZipLengthsMatch(mode, keys[1..], n, shared) by {
      assert forall k :: IsZipKey(mode, keys, shared, k) <==> IsZipKey(mode, keys[1..], shared, k);
    }
    if r.Ok? {
      forall i, k
        ensures 0 <= i < n ==> (k in r.value.perCall[i] <==> k in per[i] || IsZipKey(mode, keys, shared, k))
      {
        assert IsZipKey(mode, keys, shared, k) <==> IsZipKey(mode, keys[1..], shared, k);
      }
      forall i, k | 0 <= i < n && IsZipKey(mode, keys, shared, k)
        ensures r.value.perCall[i][k] == MakeIterable(shared[k])[i]
      {
        assert IsZipKey(mode, keys[1..], shared, k);
      }
      forall i, k | 0 <= i < n && k in per[i] && !IsZipKey(mode, keys, shared, k)
        ensures r.value.perCall[i][k] == per[i][k]
      {
        assert !IsZipKey(mode, keys[1..], shared, k);
      }
      forall k
        ensures k in r.value.shared <==> k in shared && !IsZipKey(mode, keys, shared, k)
      {
        assert IsZipKey(mode, keys, shared, k) <==> IsZipKey(mode, keys[1..], shared, k);
      }
    }
  }

  /** A key that is split up moves from the shared arguments into every
      call, on top of what the rest of the loop computes. */
  lemma ZipSplitSpec(mode: ZipMode, keys: seq<string>, n: nat, shared: Kwargs, per: seq<Kwargs>,
                     per': seq<Kwargs>, r: Result<Zipped>)
    requires |per| == n && |keys| > 0
    requires keys[0] in shared && Zips(mode, shared[keys[0]])
    requires |MakeIterable(shared[keys[0]])| == n
    requires |per'| == n
    requires forall i :: 0 <= i < n ==> per'[i] == per[i][keys[0] := MakeIterable(shared[keys[0]])[i]]
    requires ZipSpec(mode, keys[1..], n, shared - {keys[0]}, per', r)
    ensures ZipSpec(mode, keys, n, shared, per, r)
  {
    var p := keys[0];
    var vs := MakeIterable(shared[p]);
    var shared' := shared - {p};
    ZipKeyStep(mode, keys, shared);
    assert ZipLengthsMatch(mode, keys, n, shared) <==> ZipLengthsMatch(mode, keys[1..], n, shared') by {
      assert forall k :: IsZipKey(mode, keys, shared, k) <==> k == p || IsZipKey(mode, keys[1..], shared', k);
    }
    if r.Ok? {
      forall k
        ensures k in r.value.shared <==> k in shared && !IsZipKey(mode, keys, shared, k)
      {
        assert IsZipKey(mode, keys, shared, k) <==> k == p || IsZipKey(mode, keys[1..], shared', k);
      }
      forall i, k | 0 <= i < n
        ensures k in r.value.perCall[i] <==> k in per[i] || IsZipKey(mode, keys, shared, k)
      {
        assert IsZipKey(mode, keys, shared, k) <==> k == p || IsZipKey(mode, keys[1..], shared', k);
        assert per'[i] == per[i][p := vs[i]];
        assert k in per'[i] <==> k in per[i] || k == p;
      }
      forall i, k | 0 <= i < n && IsZipKey(mode, keys, shared, k)
        ensures r.value.perCall[i][k] == MakeIterable(shared[k])[i]
      {
        assert per'[i] == per[i][p := vs[i]];
        if k == p {
          assert !IsZipKey(mode, keys[1..], shared', k);
          assert k in per'[i] && per'[i][k] == vs[i];
        } else {
          assert IsZipKey(mode, keys[1..], shared', k);
          assert shared'[k] == shared[k];
        }
      }
      forall i, k | 0 <= i < n && k in per[i] && !IsZipKey(mode, keys, shared, k)
        ensures r.value.perCall[i][k] == per[i][k]
      {
        assert per'[i] == per[i][p := vs[i]];
        assert k != p && !IsZipKey(mode, keys[1..], shared', k);
        assert per'[i][k] == per[i][k];
      }
    }
  }

  /** The loop meets `ZipSpec`. */
  lemma {:induction false} ZipFromSpec(mode: ZipMode, keys: seq<string>, n: nat, shared: Kwargs, per: seq<Kwargs>)
    requires |per| == n
    ensures ZipSpec(mode, keys, n, shared, per, ZipFrom(mode, keys, n, shared, per))
    decreases |keys|
  {
    var r := ZipFrom(mode, keys, n, shared, per);
    if |keys| == 0 {
      assert forall k :: !IsZipKey(mode, keys, shared, k);
    } else {
      var p := keys[0];
      if p !in shared || !Zips(mode, shared[p]) {
        ZipFromSpec(mode, keys[1..], n, shared, per);
        ZipSkipSpec(mode, keys, n, shared, per, r);
      } else {
        var vs := MakeIterable(shared[p]);
        if |vs| == n {
          var per' := seq(n, i requires 0 <= i < n => per[i][p := vs[i]]);
          ZipFromSpec(mode, keys[1..], n, shared - {p}, per');
          ZipSplitSpec(mode, keys, n, shared, per, per', r);
        } else {
          ZipKeyStep(mode, keys, shared);
          assert IsZipKey(mode, keys, shared, p);
        }
      }
    }
  }


  /** The `can_zip` loop or the `must_zip` loop, starting from empty per-call
      maps. */
  function Zip(mode: ZipMode, keys: seq<string>, n: nat, kwargs: Kwargs): (r: Result<Zipped>)
    ensures r.Err? ==> r.error == ValueError
    ensures r.Ok? <==> ZipLengthsMatch(mode, keys, n, kwargs)
    ensures r.Ok? ==> r.value.shared == kwargs - ZipKeys(mode, keys, kwargs)
    ensures r.Ok? ==> |r.value.perCall| == n
    ensures r.Ok? ==> forall i :: 0 <= i < n ==> r.value.perCall[i].Keys == ZipKeys(mode, keys, kwargs)
    ensures r.Ok? ==> forall i, k :: 0 <= i < n && k in ZipKeys(mode, keys, kwargs) ==>
                        r.value.perCall[i][k] == MakeIterable(kwargs[k])[i]
  {
    var per := seq(n, _ => map[]);
    ZipFromSpec(mode, keys, n, kwargs, per);
    var r := ZipFrom(mode, keys, n, kwargs, per);
    if r.Ok? then
      assert r.value.shared == kwargs - ZipKeys(mode, keys, kwargs);
      assert forall i :: 0 <= i < n ==> r.value.perCall[i].Keys == ZipKeys(mode, keys, kwargs) by {
        forall i | 0 <= i < n
          ensures r.value.perCall[i].Keys == ZipKeys(mode, keys, kwargs)
        {
          assert forall k :: k in r.value.perCall[i] <==> IsZipKey(mode, keys, kwargs, k);
        }
      }
      r
    else r
  }

  /** What the decorated function declares about `inplace`: whether it has
      the parameter and its default. */
  datatype Signature = Signature(hasInplace: bool, inplaceDefault: Value)

  /** One call of the wrapped function: the neuron, then the remaining
      positional arguments, then the keyword arguments. */
  datatype Call = Call(neuron: nat, args: seq<Value>, kwargs: Kwargs)

  /** What the wrapper does: call the function once with the arguments as
      given, or call it once per neuron of the list (of a copy of it when
      `copied`) and return that list. */
  datatype Plan =
    | PassThrough(args: seq<Value>, kwargs: Kwargs)
    | PerNeuron(copied: bool, neurons: seq<nat>, calls: seq<Call>)

  /** The keyword arguments without the one the neurons came from. */
  function WithoutNeurons(kwargs: Kwargs, source: Source): Kwargs
  {
    if source.Keyword? && source.index < |NeuronKeys| then kwargs - {NeuronKeys[source.index]} else kwargs
  }

  /** The value `inplace` resolves to: the caller's, else the default. */
  function InplaceValue(sig: Signature, kwargs: Kwargs): Value
  {
    if "inplace" in kwargs then kwargs["inplace"] else sig.inplaceDefault
  }

  /** The arguments after the neuron input has been popped and `inplace`
      resolved: the positional arguments, the keyword arguments, and whether
      the list is copied. */
  datatype Prepared = Prepared(args: seq<Value>, kwargs: Kwargs, copied: bool)

  function Prepare(sig: Signature, args: seq<Value>, kwargs: Kwargs, source: Source): (p: Prepared)
    requires source.Positional? ==> |args| > 0
    ensures source.Positional? ==> p.args == args[1..]
    ensures source.Keyword? ==> p.args == args
    ensures p.copied <==> sig.hasInplace && !Truthy(InplaceValue(sig, WithoutNeurons(kwargs, source)))
    ensures sig.hasInplace ==> "inplace" !in p.kwargs
    ensures forall k :: k in p.kwargs <==>
              k in kwargs && k !in (if sig.hasInplace then {"inplace"} else {})
              && !(source.Keyword? && source.index < |NeuronKeys| && k == NeuronKeys[source.index])
    ensures forall k :: k in p.kwargs ==> p.kwargs[k] == kwargs[k]
  {
    var rest := if source.Positional? then args[1..] else args;
    var kw := WithoutNeurons(kwargs, source);
    if sig.hasInplace then
      Prepared(rest, kw - {"inplace"}, !Truthy(InplaceValue(sig, kw)))
    else Prepared(rest, kw, false)
  }

  /** The decorated call `function(*args, **kwargs)`. */
  function MapNeuronList(canZip: seq<string>, mustZip: seq<string>, sig: Signature,
                         args: seq<Value>, kwargs: Kwargs): (r: Result<Plan>)
    ensures r.Err? ==> r.error == ValueError
    ensures Locate(args, kwargs).Err? ==> r.Err?
    ensures Locate(args, kwargs).Ok? && !Locate(args, kwargs).value.nl.NeuronListV? ==>
              r == Ok(PassThrough(args, kwargs))
    ensures r.Ok? && r.value.PerNeuron? ==>
              Locate(args, kwargs).Ok? && Locate(args, kwargs).value.nl == NeuronListV(r.value.neurons)
    ensures r.Ok? && r.value.PerNeuron? ==>
              |r.value.calls| == |r.value.neurons|
              && forall i :: 0 <= i < |r.value.calls| ==> r.value.calls[i].neuron == r.value.neurons[i]
    ensures r.Ok? && r.value.PerNeuron? && sig.hasInplace ==>
              forall i :: 0 <= i < |r.value.calls| ==>
                "inplace" in r.value.calls[i].kwargs && r.value.calls[i].kwargs["inplace"] == BoolV(true)
    ensures r.Ok? && r.value.PerNeuron? && !sig.hasInplace ==> !r.value.copied
    ensures r.Ok? && r.value.PerNeuron? ==>
              forall i :: 0 <= i < |r.value.calls| ==>
                r.value.calls[i].args == (if |args| > 0 then args[1..] else args)
    ensures r.Ok? && r.value.PerNeuron? && |args| == 0 ==>
              Locate(args, kwargs).Ok? && Locate(args, kwargs).value.source.Keyword?
              && Locate(args, kwargs).value.source.index < |NeuronKeys|
              && forall i :: 0 <= i < |r.value.calls| ==>
                   NeuronKeys[Locate(args, kwargs).value.source.index] !in r.value.calls[i].kwargs
    ensures r.Ok? && r.value.PerNeuron? ==>
              Locate(args, kwargs).Ok?
              && forall i :: 0 <= i < |r.value.calls| ==>
                   r.value.calls[i].kwargs.Keys
                   == PreparedKwargs(sig, args, kwargs).Keys + (if sig.hasInplace then {"inplace"} else {})
    ensures Locate(args, kwargs).Ok? && Locate(args, kwargs).value.nl.NeuronListV? ==>
              var n := |Locate(args, kwargs).value.nl.ids|;
              var kw := PreparedKwargs(sig, args, kwargs);
              && (r.Ok? ==> r.value.PerNeuron?)
              && (r.Ok? <==> ZipLengthsMatch(CanZip, canZip, n, kw)
                             && ZipLengthsMatch(MustZip, mustZip, n, Zip(CanZip, canZip, n, kw).value.shared))
  {
    var loc :- Locate(args, kwargs);
    if !loc.nl.NeuronListV? then Ok(PassThrough(args, kwargs))
    else
      var prep := Prepare(sig, args, kwargs, loc.source);
      PerNeuronPlan(canZip, mustZip, sig, loc.nl.ids, prep)
  }

  /** The calls for a neuron list once the arguments are prepared: both
      zipping loops run, then every call gets the neuron, the remaining
      positional arguments and every prepared keyword argument (split up or
      shared), plus `inplace=True` when the function declares it. */
  function PerNeuronPlan(canZip: seq<string>, mustZip: seq<string>, sig: Signature,
                         ids: seq<nat>, prep: Prepared): (r: Result<Plan>)
    requires sig.hasInplace ==> "inplace" !in prep.kwargs
    ensures r.Err? ==> r.error == ValueError
    ensures r.Ok? <==> ZipLengthsMatch(CanZip, canZip, |ids|, prep.kwargs)
                       && ZipLengthsMatch(MustZip, mustZip, |ids|, Zip(CanZip, canZip, |ids|, prep.kwargs).value.shared)
    ensures r.Ok? ==> r.value.PerNeuron? && r.value.copied == prep.copied && r.value.neurons == ids
                      && |r.value.calls| == |ids|
    ensures r.Ok? ==> forall i :: 0 <= i < |r.value.calls| ==>
                        && r.value.calls[i].neuron == ids[i]
                        && r.value.calls[i].args == prep.args
                        && r.value.calls[i].kwargs.Keys
                           == prep.kwargs.Keys + (if sig.hasInplace then {"inplace"} else {})
    ensures r.Ok? && sig.hasInplace ==>
              forall i :: 0 <= i < |r.value.calls| ==>
                "inplace" in r.value.calls[i].kwargs && r.value.calls[i].kwargs["inplace"] == BoolV(true)
  {
    var n := |ids|;
    var can :- Zip(CanZip, canZip, n, prep.kwargs);
    var must :- Zip(MustZip, mustZip, n, can.shared);
    var shared := if sig.hasInplace then must.shared["inplace" := BoolV(true)] else must.shared;
    var calls := seq(n, i requires 0 <= i < n => Call(ids[i], prep.args, shared + can.perCall[i] + must.perCall[i]));
    assert forall i :: 0 <= i < n ==>
             calls[i].kwargs.Keys == prep.kwargs.Keys + (if sig.hasInplace then {"inplace"} else {}) by {
      forall i | 0 <= i < n
        ensures calls[i].kwargs.Keys == prep.kwargs.Keys + (if sig.hasInplace then {"inplace"} else {})
      {
        ZippedKeys(canZip, mustZip, n, prep.kwargs, i);
      }
    }
    Ok(PerNeuron(prep.copied, ids, calls))
  }

  /** Between them, the arguments left shared and those split up for one
      call are all the arguments the two loops started from. */
  lemma ZippedKeys(canZip: seq<string>, mustZip: seq<string>, n: nat, kw: Kwargs, i: nat)
    requires Zip(CanZip, canZip, n, kw).Ok?
    requires Zip(MustZip, mustZip, n, Zip(CanZip, canZip, n, kw).value.shared).Ok?
    requires i < n
    ensures var can := Zip(CanZip, canZip, n, kw).value;
            var must := Zip(MustZip, mustZip, n, can.shared).value;
            must.shared.Keys + can.perCall[i].Keys + must.perCall[i].Keys == kw.Keys
  {
  }

  /** The keyword arguments after the neuron input and `inplace` are popped. */
  function PreparedKwargs(sig: Signature, args: seq<Value>, kwargs: Kwargs): Kwargs
    requires Locate(args, kwargs).Ok?
  {
    Prepare(sig, args, kwargs, Locate(args, kwargs).value.source).kwargs
  }

  /** Whether `p` reaches the zipping loops: present, not the keyword the
      neurons came from, and not an `inplace` the function declares. */
  predicate ReachesZip(sig: Signature, args: seq<Value>, kwargs: Kwargs, p: string) {
    p in kwargs && (|args| > 0 || p !in NeuronKeys) && !(sig.hasInplace && p == "inplace")
  }

  lemma ReachesZipPrepared(sig: Signature, args: seq<Value>, kwargs: Kwargs, p: string)
    requires Locate(args, kwargs).Ok?
    requires ReachesZip(sig, args, kwargs, p)
    ensures p in PreparedKwargs(sig, args, kwargs) && PreparedKwargs(sig, args, kwargs)[p] == kwargs[p]
  {
    var loc := Locate(args, kwargs).value;
    if loc.source.Keyword? {
      assert NeuronKeys[loc.source.index] in NeuronKeys;
    }
  }

  /** The keyword arguments a call receives are the shared ones, the
      `can_zip` ones for its neuron and the `must_zip` ones for its neuron,
      and no name comes from two of them, so the call never repeats a
      keyword. */
  lemma NoRepeatedKeyword(canZip: seq<string>, mustZip: seq<string>, sig: Signature, kw: Kwargs, n: nat)
    requires sig.hasInplace ==> "inplace" !in kw
    ensures var can := Zip(CanZip, canZip, n, kw);
            can.Ok? ==>
              var must := Zip(MustZip, mustZip, n, can.value.shared);
              must.Ok? ==>
                var shared := if sig.hasInplace then must.value.shared["inplace" := BoolV(true)] else must.value.shared;
                forall i :: 0 <= i < n ==>
                  shared.Keys !! can.value.perCall[i].Keys
                  && shared.Keys !! must.value.perCall[i].Keys
                  && can.value.perCall[i].Keys !! must.value.perCall[i].Keys
  {
    var can := Zip(CanZip, canZip, n, kw);
    if can.Ok? {
      var must := Zip(MustZip, mustZip, n, can.value.shared);
      if must.Ok? {
        var shared := if sig.hasInplace then must.value.shared["inplace" := BoolV(true)] else must.value.shared;
        forall i | 0 <= i < n
          ensures shared.Keys !! can.value.perCall[i].Keys
          ensures shared.Keys !! must.value.perCall[i].Keys
          ensures can.value.perCall[i].Keys !! must.value.perCall[i].Keys
        {
          assert can.value.perCall[i].Keys == ZipKeys(CanZip, canZip, kw);
          assert must.value.perCall[i].Keys == ZipKeys(MustZip, mustZip, can.value.shared);
        }
      }
    }
  }

  /** A `can_zip` argument holding an iterable must have one value per
      neuron, else the call raises `ValueError`; with one value per neuron,
      call `i` receives value `i`. */
  lemma CanZipSplits(canZip: seq<string>, mustZip: seq<string>, sig: Signature,
                     args: seq<Value>, kwargs: Kwargs, p: string)
    requires Locate(args, kwargs).Ok? && Locate(args, kwargs).value.nl.NeuronListV?
    requires p in canZip && ReachesZip(sig, args, kwargs, p) && IsIterable(kwargs[p])
    ensures var n := |Locate(args, kwargs).value.nl.ids|;
            var r := MapNeuronList(canZip, mustZip, sig, args, kwargs);
            && (|MakeIterable(kwargs[p])| != n ==> r == Err(ValueError))
            && (r.Ok? ==> r.value.PerNeuron?
                          && forall i :: 0 <= i < n ==>
                               p in r.value.calls[i].kwargs && r.value.calls[i].kwargs[p] == MakeIterable(kwargs[p])[i])
  {
    var loc := Locate(args, kwargs).value;
    var n := |loc.nl.ids|;
    var prep := Prepare(sig, args, kwargs, loc.source);
    ReachesZipPrepared(sig, args, kwargs, p);
    assert p in ZipKeys(CanZip, canZip, prep.kwargs);
    var can := Zip(CanZip, canZip, n, prep.kwargs);
    if can.Ok? {
      var must := Zip(MustZip, mustZip, n, can.value.shared);
      if must.Ok? {
        forall i | 0 <= i < n
          ensures p !in must.value.perCall[i]
        {
          assert must.value.perCall[i].Keys == ZipKeys(MustZip, mustZip, can.value.shared);
        }
      }
    }
  }

  /** A `must_zip` argument that is not `None` (and was not already split up
      as a `can_zip` argument) must have one value per neuron after
      `make_iterable`, else the call raises `ValueError`; with one value per
      neuron, call `i` receives value `i`. */
  lemma MustZipSplits(canZip: seq<string>, mustZip: seq<string>, sig: Signature,
                      args: seq<Value>, kwargs: Kwargs, p: string)
    requires Locate(args, kwargs).Ok? && Locate(args, kwargs).value.nl.NeuronListV?
    requires p in mustZip && ReachesZip(sig, args, kwargs, p) && !kwargs[p].NoneV?
    requires !(p in canZip && IsIterable(kwargs[p]))
    ensures var n := |Locate(args, kwargs).value.nl.ids|;
            var r := MapNeuronList(canZip, mustZip, sig, args, kwargs);
            && (|MakeIterable(kwargs[p])| != n ==> r == Err(ValueError))
            && (r.Ok? ==> r.value.PerNeuron?
                          && forall i :: 0 <= i < n ==>
                               p in r.value.calls[i].kwargs && r.value.calls[i].kwargs[p] == MakeIterable(kwargs[p])[i])
  {
    var loc := Locate(args, kwargs).value;
    var n := |loc.nl.ids|;
    var prep := Prepare(sig, args, kwargs, loc.source);
    ReachesZipPrepared(sig, args, kwargs, p);
    assert p !in ZipKeys(CanZip, canZip, prep.kwargs);
    var can := Zip(CanZip, canZip, n, prep.kwargs);
    if can.Ok? {
      assert p in can.value.shared;
      assert p in ZipKeys(MustZip, mustZip, can.value.shared);
      var must := Zip(MustZip, mustZip, n, can.value.shared);
      if must.Ok? {
        forall i | 0 <= i < n
          ensures p !in can.value.perCall[i]
        {
          assert can.value.perCall[i].Keys == ZipKeys(CanZip, canZip, prep.kwargs);
        }
      }
    }
  }

  /** An argument that is split up by neither loop (absent from both lists,
      `None`, or a non-iterable `can_zip` argument) is passed unchanged to
      every call. */
  lemma UnzippedShared(canZip: seq<string>, mustZip: seq<string>, sig: Signature,
                       args: seq<Value>, kwargs: Kwargs, p: string)
    requires Locate(args, kwargs).Ok? && Locate(args, kwargs).value.nl.NeuronListV?
    requires ReachesZip(sig, args, kwargs, p)
    requires !(p in canZip && Zips(CanZip, kwargs[p]))
    requires !(p in mustZip && Zips(MustZip, kwargs[p]))
    ensures var r := MapNeuronList(canZip, mustZip, sig, args, kwargs);
            r.Ok? ==> r.value.PerNeuron?
                      && forall i :: 0 <= i < |r.value.calls| ==>
                           p in r.value.calls[i].kwargs && r.value.calls[i].kwargs[p] == kwargs[p]
  {
    var loc := Locate(args, kwargs).value;
    var n := |loc.nl.ids|;
    var prep := Prepare(sig, args, kwargs, loc.source);
    ReachesZipPrepared(sig, args, kwargs, p);
    var can := Zip(CanZip, canZip, n, prep.kwargs);
    if can.Ok? {
      assert p !in ZipKeys(CanZip, canZip, prep.kwargs);
      assert p in can.value.shared;
      var must := Zip(MustZip, mustZip, n, can.value.shared);
      if must.Ok? {
        assert p !in ZipKeys(MustZip, mustZip, can.value.shared);
        forall i | 0 <= i < n
          ensures p !in can.value.perCall[i] && p !in must.value.perCall[i]
        {
          assert can.value.perCall[i].Keys == ZipKeys(CanZip, canZip, prep.kwargs);
          assert must.value.perCall[i].Keys == ZipKeys(MustZip, mustZip, can.value.shared);
        }
      }
    }
  }

  /** The list is copied exactly when the function has an `inplace`
      parameter and the value it resolves to (the caller's, else the
      default) is falsy, whether the list came as the first positional
      argument or as a keyword. */
  lemma CopiedUnlessInplace(canZip: seq<string>, mustZip: seq<string>, sig: Signature,
                            args: seq<Value>, kwargs: Kwargs)
    requires Locate(args, kwargs).Ok? && Locate(args, kwargs).value.nl.NeuronListV?
    ensures var r := MapNeuronList(canZip, mustZip, sig, args, kwargs);
            r.Ok? ==> r.value.PerNeuron?
                      && (r.value.copied <==> sig.hasInplace && !Truthy(InplaceValue(sig, kwargs)))
  {
    var source := Locate(args, kwargs).value.source;
    if source.Keyword? {
      assert NeuronKeys[source.index] != "inplace";
    }
    assert InplaceValue(sig, WithoutNeurons(kwargs, source)) == InplaceValue(sig, kwargs);
  }
}
