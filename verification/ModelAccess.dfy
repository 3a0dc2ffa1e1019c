/** What an API key may use, decided in two ways: by the catalog policy that is built once from the batched index, and by
    the resolver that dispatch asks for each model. */
module ModelAccess {
  import opened Wrappers
  import opened BillingLexer
  import opened BillingProgram
  import opened ModelKeys
  import opened AccessIndex

  // -- The catalog policy --------------------------------------------------------------------

  // None is no restriction.
  datatype Access = Access(auths: Option<set<string>>, models: Option<set<string>>, modelAuths: map<string, set<string>>)

  // Identifiers are trimmed already.
  function AuthSet(auths: seq<string>): set<string> { set auth | auth in auths && auth != "" }

  function OptionalAuths(auths: Option<seq<string>>): Option<set<string>> { if auths.None? then None else Some(AuthSet(auths.value)) }

  function ModelSet(key: string -> string, models: seq<string>): set<string> { set model | model in models && key(model) != "" :: key(model) }

  // Each model key has the credentials of all index entries that are normalised to it.
  ghost predicate Merges(key: string -> string, modelAuths: map<string, set<string>>, index: map<string, seq<string>>, entries: set<string>) {
    && (forall m :: m in modelAuths <==> exists k :: k in entries && key(k) == m)
    && (forall m, auth :: m in modelAuths ==>
          (auth in modelAuths[m] <==> exists k :: k in entries && k in index && key(k) == m && auth in AuthSet(index[k])))
  }

  function Merged(modelAuths: map<string, set<string>>, m: string, auths: set<string>): map<string, set<string>> {
    modelAuths[m := (if m in modelAuths then modelAuths[m] else {}) + auths]
  }

  lemma MergesNext(key: string -> string, modelAuths: map<string, set<string>>, index: map<string, seq<string>>, entries: set<string>, k: string)
    requires Merges(key, modelAuths, index, entries) && k in index && k !in entries
    ensures Merges(key, Merged(modelAuths, key(k), AuthSet(index[k])), index, entries + {k})
  {
    var next := Merged(modelAuths, key(k), AuthSet(index[k]));
    forall m ensures m in next <==> exists e :: e in entries + {k} && key(e) == m {
      if m == key(k) { assert k in entries + {k}; }
      if e :| e in entries && key(e) == m { assert e in entries + {k}; }
    }
    forall m, auth | m in next
      ensures auth in next[m] <==> exists e :: e in entries + {k} && e in index && key(e) == m && auth in AuthSet(index[e])
    {
      if m == key(k) && auth in AuthSet(index[k]) { assert k in entries + {k}; }
      if m in modelAuths && auth in modelAuths[m] {
        var e :| e in entries && e in index && key(e) == m && auth in AuthSet(index[e]);
        assert e in entries + {k};
      }
    }
  }

  method NewModelAccess(key: string -> string, auths: Option<seq<string>>, models: Option<seq<string>>, index: map<string, seq<string>>)
    returns (access: Access)
    ensures access.auths == OptionalAuths(auths)
    ensures access.models == if models.None? then None else Some(ModelSet(key, models.value))
    ensures Merges(key, access.modelAuths, index, index.Keys)
  {
    var modelAuths: map<string, set<string>> := map[];
    var left := index.Keys;
    ghost var done: set<string> := {};
    while left != {}
      invariant left !! done && left + done == index.Keys && Merges(key, modelAuths, index, done)
      decreases left
    {
      var k: string :| k in left;
      MergesNext(key, modelAuths, index, done, k);
      modelAuths := Merged(modelAuths, key(k), AuthSet(index[k]));
      left, done := left - {k}, done + {k};
    }
    assert done == index.Keys;
    access := Access(OptionalAuths(auths), if models.None? then None else Some(ModelSet(key, models.value)), modelAuths);
  }

  predicate AuthAllowed(auth: string, allowed: Option<set<string>>) { allowed.None? || (auth != "" && auth in allowed.value) }

  predicate ModelAllowed(key: string -> string, model: string, allowed: Option<set<string>>) {
    allowed.None? || (key(model) != "" && key(model) in allowed.value)
  }

  predicate Allows(key: string -> string, access: Access, auth: string, model: string) {
    && AuthAllowed(auth, access.auths)
    && ModelAllowed(key, model, access.models)
    && AuthAllowed(auth, if key(model) in access.modelAuths then Some(access.modelAuths[key(model)]) else None)
  }

  // -- The resolver's answer -----------------------------------------------------------------

  // The identifiers of base that are among others too, each once.
  function Intersection(base: seq<string>, others: seq<string>): seq<string> {
    if base == [] then []
    else
      var before := Intersection(base[..|base| - 1], others);
      var auth := base[|base| - 1];
      if auth == "" || auth !in others || auth in before then before else before + [auth]
  }

  lemma {:induction false} IntersectionMembers(base: seq<string>, others: seq<string>, auth: string)
    ensures auth in Intersection(base, others) <==> auth != "" && auth in base && auth in others
  {
    if base != [] {
      var n := |base| - 1;
      IntersectionMembers(base[..n], others, auth);
      assert base == base[..n] + [base[n]];
      if base[n] in others && base[n] != "" { IntersectionMembers(base[..n], others, base[n]); }
    }
  }

  method IntersectAllowed(base: Option<seq<string>>, specific: seq<string>) returns (allowed: seq<string>)
    ensures allowed == if base.None? then specific else Intersection(base.value, specific)
  {
    if base.None? { return specific; }
    allowed := [];
    var i := 0;
    while i < |base.value|
      invariant 0 <= i <= |base.value| && allowed == Intersection(base.value[..i], specific)
    {
      assert base.value[..i + 1][..i] == base.value[..i];
      var auth := base.value[i];
      if auth != "" && auth in specific && auth !in allowed { allowed := allowed + [auth]; }
      i := i + 1;
    }
    assert base.value[..|base.value|] == base.value;
  }

  // The credentials of the base channels; None if the key is bound to none.
  function BaseAuths(base: seq<nat>, table: seq<Binding>, looked: set<nat>): Option<seq<string>> {
    if base == [] then None else Some(Identifiers(Of(Of(table, looked), SetOf(Normalized(base)))))
  }

  // What AllowedDispatchIDsForAPIKeyModel answers for credentials: a failure, no restriction, or a list.
  function Dispatch(key: string -> string, details: seq<Detail>, base: seq<nat>, table: seq<Binding>,
      model: string): Option<Option<seq<string>>> {
    match ModelChannels(key, details, model)
    case None => None
    case Some(c) =>
      if !c.restricted then Some(BaseAuths(base, table, SetOf(base)))
      else
        var looked := SetOf(base) + SetOf(c.ids);
        var specific := Identifiers(Of(Of(table, looked), SetOf(Normalized(c.ids))));
        var auths := BaseAuths(base, table, looked);
        Some(Some(if auths.None? then specific else Intersection(auths.value, specific)))
  }

  // One query answers the rows of all channels that are looked at.
  method AllowedDispatch(key: string -> string, details: seq<Detail>, base: seq<nat>, table: seq<Binding>,
      model: string) returns (r: Option<Option<seq<string>>>)
    ensures r == Dispatch(key, details, base, table, model)
  {
    var c := ModelChannelGroupIDs(key, details, model);
    if c.None? { return None; }
    var looked := if c.value.restricted then SetOf(base) + SetOf(c.value.ids) else SetOf(base);
    var rows := Of(table, looked);
    var auths: Option<seq<string>> := None;
    if base != [] {
      var allowed := AllowedAuthIDs(rows, base);
      auths := Some(allowed);
    }
    if !c.value.restricted { return Some(auths); }
    var specific := AllowedAuthIDs(rows, c.value.ids);
    var both := IntersectAllowed(auths, specific);
    r := Some(Some(both));
  }

  // -- The models of an API key ----------------------------------------------------------------

  // The canonical names of the details, each once whatever its case.
  function ModelNames(rt: Runtime, lower: char -> char, details: seq<Detail>): seq<string> {
    if details == [] then []
    else
      var before := ModelNames(rt, lower, details[..|details| - 1]);
      var name := Canonical(rt, details[|details| - 1].model);
      if name == "" || Lower(lower, name) in Lowered(lower, before) then before else before + [name]
  }

  function Lowered(lower: char -> char, names: seq<string>): set<string> { set name | name in names :: Lower(lower, name) }

  // allowedModelIDsFromDetails; restricted says whether the API key has model groups.
  method AllowedModelIDs(rt: Runtime, lower: char -> char, details: seq<Detail>, restricted: bool) returns (names: Option<seq<string>>)
    ensures names == if restricted then Some(ModelNames(rt, lower, details)) else None
  {
    if !restricted { return None; }
    var allowed: seq<string> := [];
    var seen: set<string> := {};
    var i := 0;
    while i < |details|
      invariant 0 <= i <= |details| && allowed == ModelNames(rt, lower, details[..i]) && seen == Lowered(lower, allowed)
    {
      assert details[..i + 1][..i] == details[..i];
      var name := Canonical(rt, details[i].model);
      if name != "" && Lower(lower, name) !in seen {
        seen := seen + {Lower(lower, name)};
        assert Lowered(lower, allowed + [name]) == Lowered(lower, allowed) + {Lower(lower, name)};
        allowed := allowed + [name];
      }
      i := i + 1;
    }
    assert details[..|details|] == details;
    names := Some(allowed);
  }

  // The keys under which the names of the details are listed: those of the names that are stored
  // already canonical, canonicalised once more.
  function Listed(key: string -> string, details: seq<Detail>): set<string> {
    set d | d in details && key(key(d.model)) != "" :: key(key(d.model))
  }

  lemma SameCaseSameKey(rt: Runtime, lower: char -> char, a: string, b: string)
    requires Folds(rt, lower) && Lower(lower, a) == Lower(lower, b)
    ensures KeyOf(rt, lower, a) == KeyOf(rt, lower, b)
  {
    LowerCanonical(rt, lower, a);
    LowerCanonical(rt, lower, b);
  }

  lemma ListedNext(key: string -> string, details: seq<Detail>, d: Detail)
    ensures Listed(key, details + [d]) == Listed(key, details) + (if key(key(d.model)) != "" then {key(key(d.model))} else {})
  {
  }

  lemma SetNext(key: string -> string, names: seq<string>, name: string)
    ensures ModelSet(key, names + [name]) == ModelSet(key, names) + (if key(name) != "" then {key(name)} else {})
  {
  }

  lemma {:induction false} NamesListed(rt: Runtime, lower: char -> char, details: seq<Detail>)
    requires Folds(rt, lower)
    ensures ModelSet(Key(rt, lower), ModelNames(rt, lower, details)) == Listed(Key(rt, lower), details)
  {
    if details != [] {
      var n := |details| - 1;
      assert details == details[..n] + [details[n]];
      var key, before, name := Key(rt, lower), ModelNames(rt, lower, details[..n]), Canonical(rt, details[n].model);
      NamesListed(rt, lower, details[..n]);
      ListedNext(key, details[..n], details[n]);
      SetNext(key, before, name);
      KeyTwice(rt, lower, details[n].model);
      assert key(name) == key(key(details[n].model));
      if name == "" {
        assert key("") == "";
      } else if Lower(lower, name) in Lowered(lower, before) {
        var other :| other in before && Lower(lower, other) == Lower(lower, name);
        SameCaseSameKey(rt, lower, other, name);
        assert key(other) == key(name);
      }
    }
  }

  // -- The two agree -------------------------------------------------------------------------

  // The dispatch filter on the resolver's answer.
  predicate Permits(answer: Option<seq<string>>, auth: string) { answer.None? || (auth != "" && auth in answer.value) }

  // Both filter by the same list of models.
  predicate Shown(key: string -> string, details: seq<Detail>, restricted: bool, model: string) {
    restricted ==> key(model) in Listed(key, details)
  }

  // What dispatch decides.
  predicate Decides(key: string -> string, details: seq<Detail>, restricted: bool, base: seq<nat>, table: seq<Binding>, auth: string,
      model: string) {
    && Shown(key, details, restricted, model)
    && Dispatch(key, details, base, table, model).Some? && Permits(Dispatch(key, details, base, table, model).value, auth)
  }

  // What an API key is bound to: without model groups it has no details.
  ghost predicate Bound(details: seq<Detail>, restricted: bool, base: seq<nat>, table: seq<Binding>) {
    (restricted || details == []) && ByChannel(table) && Ascending(base) && 0 !in base
  }

  // The policy that is built for an API key from this index.
  ghost predicate AccessFor(key: string -> string, details: seq<Detail>, restricted: bool, base: seq<nat>, table: seq<Binding>,
      access: Access, index: map<string, seq<string>>) {
    && Indexes(key, details, table, index)
    && access.auths == OptionalAuths(BaseAuths(base, table, SetOf(base)))
    && access.models == (if restricted then Some(Listed(key, details)) else None)
    && Merges(key, access.modelAuths, index, index.Keys)
  }

  // ModelAccessForAPIKey; None if the channels of a model cannot be decoded.
  method CatalogAccess(rt: Runtime, lower: char -> char, details: seq<Detail>, restricted: bool, base: seq<nat>, table: seq<Binding>)
    returns (access: Option<Access>, ghost index: map<string, seq<string>>)
    requires Folds(rt, lower) && Bound(details, restricted, base, table)
    ensures access.None? <==> !Decodes(Key(rt, lower), details)
    ensures access.Some? ==> AccessFor(Key(rt, lower), details, restricted, base, table, access.value, index)
  {
    var names := AllowedModelIDs(rt, lower, details, restricted);
    NamesListed(rt, lower, details);
    var built, auths;
    ghost var looked;
    built, auths, looked := BuildIndex(Key(rt, lower), details, base, table);
    if built.None? { return None, map[]; }
    index := built.value;
    var baseAuths := if base == [] then None else Some(auths);
    BaseAgrees(table, base, looked, SetOf(base));
    var policy := NewModelAccess(Key(rt, lower), baseAuths, names, built.value);
    access := Some(policy);
  }

  ghost predicate Decodes(key: string -> string, details: seq<Detail>) {
    forall k :: k in Keys(key, details) ==> Grouped(key, details, k).Some?
  }

  // A policy's entries are those of the index: the keys it holds are their own keys.
  lemma EntriesOfIndex(key: string -> string, details: seq<Detail>, table: seq<Binding>, index: map<string, seq<string>>, access: Access,
      m: string)
    requires Indexes(key, details, table, index) && Merges(key, access.modelAuths, index, index.Keys)
    ensures m in access.modelAuths <==> m in index
    ensures m in index ==> access.modelAuths[m] == AuthSet(index[m])
  {
    forall k | k in index ensures key(k) == k {
      var d :| d in details && key(d.model) == k;
      GroupedAgrees(key, details, d.model);
    }
    if m in index { assert key(m) == m; }
  }

  lemma BasePermits(table: seq<Binding>, base: seq<nat>, resolved: set<nat>, auth: string)
    requires SetOf(base) <= resolved && Ascending(base) && 0 !in base
    ensures AuthAllowed(auth, OptionalAuths(BaseAuths(base, table, SetOf(base)))) <==> Permits(BaseAuths(base, table, resolved), auth)
  {
    NormalizedTwice(base);
    OfTwice(table, resolved, SetOf(base));
    OfTwice(table, SetOf(base), SetOf(base));
  }

  lemma ModelShown(key: string -> string, details: seq<Detail>, restricted: bool, models: Option<set<string>>, model: string)
    requires models == if restricted then Some(Listed(key, details)) else None
    ensures ModelAllowed(key, model, models) <==> Shown(key, details, restricted, model)
  {
  }

  // For every model on which the index is right, the catalog policy allows exactly the credentials
  // that dispatch decides for.
  lemma AllowsExact(key: string -> string, details: seq<Detail>, restricted: bool, base: seq<nat>, table: seq<Binding>,
      access: Access, index: map<string, seq<string>>, model: string, auth: string)
    requires Bound(details, restricted, base, table) && AccessFor(key, details, restricted, base, table, access, index)
    requires Indexable(key, details, model)
    ensures Allows(key, access, auth, model) <==> Decides(key, details, restricted, base, table, auth, model)
  {
    IndexExact(key, details, base, table, index, model);
    EntriesOfIndex(key, details, table, index, access, key(model));
    ModelShown(key, details, restricted, access.models, model);
    var c := ModelChannels(key, details, model).value;
    BasePermits(table, base, if c.restricted then SetOf(base) + SetOf(c.ids) else SetOf(base), auth);
    if c.restricted && base != [] {
      var both := SetOf(base) + SetOf(c.ids);
      IntersectionMembers(BaseAuths(base, table, both).value, Identifiers(Of(Of(table, both), SetOf(Normalized(c.ids)))), auth);
    }
  }

  // For any other model the policy does not know the restriction: it allows whatever the base
  // channels do, so it never hides a credential that dispatch would decide for.
  lemma AllowsWide(key: string -> string, details: seq<Detail>, restricted: bool, base: seq<nat>, table: seq<Binding>,
      access: Access, index: map<string, seq<string>>, model: string, auth: string)
    requires Bound(details, restricted, base, table) && AccessFor(key, details, restricted, base, table, access, index)
    requires !Indexable(key, details, model)
    ensures Allows(key, access, auth, model) <==>
            Shown(key, details, restricted, model) && Permits(BaseAuths(base, table, SetOf(base)), auth)
    ensures Decides(key, details, restricted, base, table, auth, model) ==> Allows(key, access, auth, model)
  {
    GroupedAgrees(key, details, model);
    EntriesOfIndex(key, details, table, index, access, key(model));
    ModelShown(key, details, restricted, access.models, model);
    BasePermits(table, base, SetOf(base), auth);
    CollectsNothing(key, details, key(model));
    var c := ModelChannels(key, details, model);
    if c.Some? && base != [] {
      var both := SetOf(base) + SetOf(c.value.ids);
      BasePermits(table, base, both, auth);
      IntersectionMembers(BaseAuths(base, table, both).value, Identifiers(Of(Of(table, both), SetOf(Normalized(c.value.ids)))), auth);
    }
  }

  // -- When they do --------------------------------------------------------------------------

  // The index of details without any bindings.
  ghost function EmptyIndex(key: string -> string, details: seq<Detail>): map<string, seq<string>>
    requires Decodes(key, details)
  {
    map k | k in Keys(key, details) && Grouped(key, details, k).value.restricted :: []
  }

  ghost function EmptyAccess(key: string -> string, details: seq<Detail>, restricted: bool): Access
    requires Decodes(key, details)
  {
    Access(None, if restricted then Some(Listed(key, details)) else None, map k | k in EmptyIndex(key, details) :: {})
  }

  lemma EmptyBuilt(key: string -> string, details: seq<Detail>, restricted: bool)
    requires Decodes(key, details)
    ensures AccessFor(key, details, restricted, [], [], EmptyAccess(key, details, restricted), EmptyIndex(key, details))
  {
    var index := EmptyIndex(key, details);
    assert forall channels :: Of([], channels) == [];
    forall k | k in index ensures key(k) == k {
      var d :| d in details && key(d.model) == k;
      GroupedAgrees(key, details, d.model);
    }
  }

  // Whatever its channels and their credentials are.
  ghost predicate AlwaysAgree(key: string -> string, details: seq<Detail>, restricted: bool, model: string) {
    forall base, table, access, index, auth ::
      Bound(details, restricted, base, table) && AccessFor(key, details, restricted, base, table, access, index)
      ==> (Allows(key, access, auth, model) <==> Decides(key, details, restricted, base, table, auth, model))
  }

  // For an API key whose policy can be built, catalog and dispatch agree on a model, whatever its channels and
  // their credentials are, exactly if the index is right about the model or the model is not listed.
  lemma CatalogExact(key: string -> string, details: seq<Detail>, restricted: bool, model: string)
    requires Decodes(key, details) && (restricted || details == [])
    ensures AlwaysAgree(key, details, restricted, model) <==>
            Indexable(key, details, model) || !Shown(key, details, restricted, model)
  {
    if Indexable(key, details, model) || !Shown(key, details, restricted, model) {
      forall base, table, access, index, auth
        | Bound(details, restricted, base, table) && AccessFor(key, details, restricted, base, table, access, index)
        ensures Allows(key, access, auth, model) <==> Decides(key, details, restricted, base, table, auth, model)
      {
        ModelShown(key, details, restricted, access.models, model);
        if Indexable(key, details, model) { AllowsExact(key, details, restricted, base, table, access, index, model, auth); }
      }
    } else {
      Loose(key, details, restricted, model);
      var access, index := EmptyAccess(key, details, restricted), EmptyIndex(key, details);
      assert Bound(details, restricted, [], []) && AccessFor(key, details, restricted, [], [], access, index);
      assert Allows(key, access, "", model) && !Decides(key, details, restricted, [], [], "", model);
    }
  }

  // A listed model the index is wrong about: without base channels and credentials, the catalog allows
  // it to everyone and dispatch to no one.
  lemma Loose(key: string -> string, details: seq<Detail>, restricted: bool, model: string)
    requires Decodes(key, details) && (restricted || details == [])
    requires Shown(key, details, restricted, model) && !Indexable(key, details, model)
    ensures var access, index := EmptyAccess(key, details, restricted), EmptyIndex(key, details);
            && Bound(details, restricted, [], []) && AccessFor(key, details, restricted, [], [], access, index)
            && forall auth :: Allows(key, access, auth, model) && !Decides(key, details, restricted, [], [], auth, model)
  {
    var access, index := EmptyAccess(key, details, restricted), EmptyIndex(key, details);
    EmptyBuilt(key, details, restricted);
    CollectsNothing(key, details, key(model));
    forall auth ensures Allows(key, access, auth, model) && !Decides(key, details, restricted, [], [], auth, model) {
      AllowsWide(key, details, restricted, [], [], access, index, model, auth);
    }
  }

  // There is such a model exactly if some detail that binds channels has a key with another key, and
  // that key is listed: by another detail, whose name has one suffix more.
  lemma LooseModels(key: string -> string, details: seq<Detail>)
    ensures (exists model :: Shown(key, details, true, model) && !Indexable(key, details, model)) <==>
            exists d :: d in details && !Open(d) && key(key(d.model)) != key(d.model) && key(d.model) in Listed(key, details)
  {
    if model :| Shown(key, details, true, model) && !Indexable(key, details, model) {
      var d :| d in details && key(d.model) == key(model) && !Open(d);
      assert key(key(d.model)) != key(d.model) && key(d.model) in Listed(key, details);
    }
    if d :| d in details && !Open(d) && key(key(d.model)) != key(d.model) && key(d.model) in Listed(key, details) {
      assert Shown(key, details, true, d.model) && !Indexable(key, details, d.model);
    }
  }

  // The index is right for every model exactly if it is for those that are bound to channels.
  lemma IndexableAll(key: string -> string, details: seq<Detail>)
    ensures (forall model :: Indexable(key, details, model)) <==>
            forall d :: d in details ==> Open(d) || key(d.model) == "" || key(key(d.model)) == key(d.model)
  {
    forall d | d in details && !Open(d) && Indexable(key, details, d.model) ensures key(d.model) == "" || key(key(d.model)) == key(d.model) {
    }
  }

  lemma OwnOrNone(rt: Runtime, lower: char -> char, model: string)
    requires Folds(rt, lower)
    ensures var key := Key(rt, lower);
            key(model) == "" || key(key(model)) == key(model) <==> !HasSuffix(rt, Canonical(rt, model))
  {
    OwnKey(rt, lower, model);
  }

  // So it is right for every model exactly if no detail that binds channels is stored under a name
  // that still has a suffix after its own one is stripped.
  lemma AlwaysIndexable(rt: Runtime, lower: char -> char, details: seq<Detail>)
    requires Folds(rt, lower)
    ensures (forall model :: Indexable(Key(rt, lower), details, model)) <==>
            forall d :: d in details ==> Open(d) || !HasSuffix(rt, Canonical(rt, d.model))
  {
    IndexableAll(Key(rt, lower), details);
    forall d | d in details
      ensures Key(rt, lower)(d.model) == "" || Key(rt, lower)(Key(rt, lower)(d.model)) == Key(rt, lower)(d.model)
              <==> !HasSuffix(rt, Canonical(rt, d.model))
    {
      OwnOrNone(rt, lower, d.model);
    }
  }

  // -- Such names ----------------------------------------------------------------------------

  // A name with a suffix.
  function With(stem: string, suffix: string): string { stem + "(" + suffix + ")" }

  lemma {:induction false} NoOpen(s: string)
    requires '(' !in s
    ensures LastOpen(s) == -1
  {
    if s != "" { NoOpen(s[..|s| - 1]); }
  }

  lemma WithStripped(rt: Runtime, stem: string, suffix: string)
    requires Faithful(rt) && stem != "" && Trimmed(rt, stem) && '(' !in suffix
    ensures Canonical(rt, With(stem, suffix)) == stem && HasSuffix(rt, With(stem, suffix)) && Trimmed(rt, With(stem, suffix))
  {
    SuffixStripped(rt, stem, suffix);
    assert With(stem, suffix)[0] == stem[0] && With(stem, suffix)[|With(stem, suffix)| - 1] == ')';
  }

  // Binding channels to a name stores it without its last suffix, so it takes a name with three of
  // them for the index to be wrong about a model; two are fine. Alone, the stored name is listed under
  // its stem only, so the model is shown by neither.
  lemma ThreeSuffixes(rt: Runtime, lower: char -> char, stem: string, a: string, b: string, c: string)
    requires Faithful(rt) && Folds(rt, lower) && Stemlike(rt, stem) && '(' !in a && '(' !in b && '(' !in c
    ensures var key, stored := Key(rt, lower), Canonical(rt, With(With(With(stem, a), b), c));
            && stored == With(With(stem, a), b)
            && !Indexable(key, [Detail(stored, Some([1]))], stored)
            && !Shown(key, [Detail(stored, Some([1]))], true, stored)
    ensures forall model :: Indexable(Key(rt, lower), [Detail(Canonical(rt, With(With(stem, a), b)), Some([1]))], model)
  {
    WithStripped(rt, stem, a);
    WithStripped(rt, With(stem, a), b);
    WithStripped(rt, With(With(stem, a), b), c);
    NoOpen(stem);
    OwnOrNone(rt, lower, With(With(stem, a), b));
    AlwaysIndexable(rt, lower, [Detail(With(stem, a), Some([1]))]);
    Alone(Key(rt, lower), With(With(stem, a), b));
  }

  // A model that is bound under a key with another key, and nothing else.
  lemma Alone(key: string -> string, model: string)
    requires key(model) != "" && key(key(model)) != key(model)
    ensures !Indexable(key, [Detail(model, Some([1]))], model) && !Shown(key, [Detail(model, Some([1]))], true, model)
  {
    var d := Detail(model, Some([1]));
    assert d in [d] && !Open(d);
  }

  ghost predicate Stemlike(rt: Runtime, stem: string) { stem != "" && Trimmed(rt, stem) && '(' !in stem }

  // The keys of two names that share a stem and a suffix: the second, one suffix longer, is listed
  // under the key of the first.
  lemma SharedKeys(rt: Runtime, lower: char -> char, stem: string, a: string, b: string, x: string, y: string)
    requires Faithful(rt) && Folds(rt, lower) && Stemlike(rt, stem) && '(' !in a && '(' !in b && '(' !in x && '(' !in y
    ensures var key, first, second := Key(rt, lower), With(With(stem, a), b), With(With(With(stem, a), x), y);
            key(first) != "" && key(key(first)) != key(first) && key(key(second)) == key(first)
  {
    WithStripped(rt, stem, a);
    WithStripped(rt, With(stem, a), b);
    WithStripped(rt, With(stem, a), x);
    WithStripped(rt, With(With(stem, a), x), y);
    OwnOrNone(rt, lower, With(With(stem, a), b));
    KeyTwice(rt, lower, With(With(With(stem, a), x), y));
  }

  // One detail binds the first to a channel, and the other, without channels, lists its key: dispatch allows
  // the first model to no one when the channel has no credentials, the catalog to everyone.
  lemma Misses(key: string -> string, first: string, second: string)
    requires key(first) != "" && key(key(first)) != key(first) && key(key(second)) == key(first)
    ensures var details := [Detail(first, Some([1])), Detail(second, Some([]))];
            && Decodes(key, details) && Shown(key, details, true, first) && !Indexable(key, details, first)
            && AccessFor(key, details, true, [], [], EmptyAccess(key, details, true), EmptyIndex(key, details))
            && forall auth :: Allows(key, EmptyAccess(key, details, true), auth, first) && !Decides(key, details, true, [], [], auth, first)
  {
    var details := [Detail(first, Some([1])), Detail(second, Some([]))];
    assert details[0] in details && details[1] in details && !Open(details[0]);
    forall k | k in Keys(key, details) ensures Grouped(key, details, k).Some? {
      NoneFails(key, OfKey(key, details, k), k);
      OnlyOf(key, details, k);
    }
    Loose(key, details, true, first);
  }

  // Without details that cannot be decoded nothing fails.
  lemma {:induction false} NoneFails(key: string -> string, details: seq<Detail>, k: string)
    ensures (forall d :: d in details ==> d.channels.Some?) ==> Collect(key, details, k).Some? && ModelChannels(key, details, k).Some?
  {
    if forall d :: d in details ==> d.channels.Some? { AllDecoded(key, details, k); AllDecoded(key, details, key(k)); }
  }

  lemma {:induction false} AllDecoded(key: string -> string, details: seq<Detail>, k: string)
    requires forall d :: d in details ==> d.channels.Some?
    ensures Collect(key, details, k).Some?
  {
    if details != [] {
      assert details[|details| - 1] in details;
      AllDecoded(key, details[..|details| - 1], k);
    }
  }

  lemma {:induction false} OnlyOf(key: string -> string, details: seq<Detail>, k: string)
    ensures forall d :: d in OfKey(key, details, k) ==> d in details
  {
    if details != [] {
      OnlyOf(key, details[..|details| - 1], k);
      assert details == details[..|details| - 1] + [details[|details| - 1]];
    }
  }

  // For example the names "m(a)(b)" and "m(a)(x)(y)", bound as "m(a)(b)(c)" and "m(a)(x)(y)(z)".
  lemma SuffixesOfM(rt: Runtime, lower: char -> char)
    requires Faithful(rt) && Folds(rt, lower)
    ensures Canonical(rt, With("m(a)(b)", "c")) == "m(a)(b)" && Canonical(rt, With("m(a)(x)(y)", "z")) == "m(a)(x)(y)"
    ensures var key, details := Key(rt, lower), [Detail("m(a)(b)", Some([1])), Detail("m(a)(x)(y)", Some([]))];
            && Decodes(key, details) && AccessFor(key, details, true, [], [], EmptyAccess(key, details, true), EmptyIndex(key, details))
            && forall auth :: Allows(key, EmptyAccess(key, details, true), auth, "m(a)(b)") && !Decides(key, details, true, [], [], auth, "m(a)(b)")
  {
    var first, second := With(With("m", "a"), "b"), With(With(With("m", "a"), "x"), "y");
    assert first == "m(a)(b)" && second == "m(a)(x)(y)";
    WithStripped(rt, "m", "a");
    WithStripped(rt, With("m", "a"), "b");
    WithStripped(rt, With("m", "a"), "x");
    WithStripped(rt, With(With("m", "a"), "x"), "y");
    WithStripped(rt, first, "c");
    WithStripped(rt, second, "z");
    SharedKeys(rt, lower, "m", "a", "b", "x", "y");
    Misses(Key(rt, lower), first, second);
  }
}
