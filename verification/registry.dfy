/** The source registry: game sources keyed by the name they report after
    initialisation. A source is any value; its `Name` and `Init` are passed
    in as functions, `Init` returning the initialised source or an error. */
module Registry {
  import opened Wrappers
  import opened Models
  import opened Seqs

  datatype Registry<S> = Registry(sources: map<string, S>)

  function NewRegistry<S>(): (r: Registry<S>)
    ensures r.sources == map[]
  {
    Registry(map[])
  }

  /** The registry after a registration attempt, with Init's error if any. */
  datatype Registered<S> = Registered(registry: Registry<S>, err: Option<string>)

  /** RegisterWithConfig: Init runs first; on failure the error is returned
      and the registry is untouched, otherwise the initialised source is
      stored under its name, replacing any source of that name. */
  function RegisterWithConfig<S>(r: Registry<S>, source: S, config: Option<Fields>,
                                 name: S -> string, init: (S, Option<Fields>) -> Result<S>): (res: Registered<S>)
    ensures init(source, config).Err? ==> res == Registered(r, Some(init(source, config).msg))
    ensures init(source, config).Ok? ==> res.err.None?
    ensures init(source, config).Ok? ==>
              var s := init(source, config).value;
              && res.registry.sources.Keys == r.sources.Keys + {name(s)}
              && res.registry.sources[name(s)] == s
              && forall n :: n in r.sources && n != name(s) ==> res.registry.sources[n] == r.sources[n]
  {
    match init(source, config)
    case Err(e) => Registered(r, Some(e))
    case Ok(s) => Registered(Registry(r.sources[name(s) := s]), None)
  }

  /** Register: RegisterWithConfig with a nil configuration. */
  function Register<S>(r: Registry<S>, source: S, name: S -> string,
                       init: (S, Option<Fields>) -> Result<S>): (res: Registered<S>)
    ensures init(source, None).Err? ==> res.registry == r && res.err.Some?
    ensures init(source, None).Ok? ==> res.err.None? && Get(res.registry, name(init(source, None).value)) == Some(init(source, None).value)
  {
    RegisterWithConfig(r, source, None, name, init)
  }

  /** Get: the source registered under a name, if any. */
  function Get<S>(r: Registry<S>, n: string): (res: Option<S>)
    ensures res.Some? <==> n in r.sources
    ensures res.Some? ==> res.value == r.sources[n]
  {
    if n in r.sources then Some(r.sources[n]) else None
  }

  /** After a successful registration the new source answers for its name;
      every other name answers as before. */
  lemma RegisterThenGet<S>(r: Registry<S>, source: S, config: Option<Fields>,
                           name: S -> string, init: (S, Option<Fields>) -> Result<S>, n: string)
    requires init(source, config).Ok?
    ensures var s := init(source, config).value;
            var g := Get(RegisterWithConfig(r, source, config, name, init).registry, n);
            g == if n == name(s) then Some(s) else Get(r, n)
  {
  }

  /** Registering two sources with the same name keeps only the second. */
  lemma ReRegisterReplaces<S>(r: Registry<S>, a: S, b: S, name: S -> string,
                              init: (S, Option<Fields>) -> Result<S>)
    requires init(a, None).Ok? && init(b, None).Ok?
    requires name(init(a, None).value) == name(init(b, None).value)
    ensures var r2 := Register(Register(r, a, name, init).registry, b, name, init).registry;
            r2.sources == r.sources[name(init(b, None).value) := init(b, None).value]
  {
  }

  /** GetNames: every registered name exactly once, in an unspecified order
      (Go's map iteration order). */
  method GetNames<S>(r: Registry<S>) returns (names: seq<string>)
    ensures Distinct(names)
    ensures forall n :: n in names <==> n in r.sources
    ensures |names| == |r.sources|
  {
    names := [];
    var rest := r.sources.Keys;
    while rest != {}
      invariant rest <= r.sources.Keys
      invariant forall n :: n in names <==> n in r.sources && n !in rest
      invariant Distinct(names)
      invariant |names| + |rest| == |r.sources|
      decreases |rest|
    {
      var n :| n in rest;
      names := names + [n];
      rest := rest - {n};
    }
  }

  /** GetAll: the registered sources, one per name, in the order of some
      listing of the names. */
  method GetAll<S(==)>(r: Registry<S>) returns (all: seq<S>)
    ensures |all| == |r.sources|
    ensures forall s :: s in all ==> s in r.sources.Values
    ensures forall n :: n in r.sources ==> r.sources[n] in all
  {
    var names := GetNames(r);
    all := [];
    var i := 0;
    while i < |names|
      invariant 0 <= i <= |names|
      invariant |all| == i
      invariant forall k :: 0 <= k < i ==> all[k] == r.sources[names[k]]
    {
      all := all + [r.sources[names[i]]];
      i := i + 1;
    }
    forall n | n in r.sources
      ensures r.sources[n] in all
    {
      var k :| 0 <= k < |names| && names[k] == n;
      assert all[k] == r.sources[n];
    }
  }
}
