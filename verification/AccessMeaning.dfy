/** What the channel lists, the credential lists and the dispatch decision of an API key mean, told from its details and
    the channel table alone. */
module AccessMeaning {
  import opened Wrappers
  import opened AccessIndex
  import opened ModelAccess
  import opened ModelKeys
  import opened BillingLexer

  // -- Channels ------------------------------------------------------------------------------

  // A detail of this key that binds its model to a channel.
  predicate Binds(key: string -> string, d: Detail, k: string, channel: nat) {
    key(d.model) == k && d.channels.Some? && channel in d.channels.value
  }

  // Collecting fails exactly if a detail of the key cannot be decoded. It restricts exactly if one of
  // them has channels, and finds exactly the channels that one of them binds.
  lemma {:induction false} CollectMeans(key: string -> string, details: seq<Detail>, k: string)
    ensures Collect(key, details, k).None? <==> exists d :: d in details && key(d.model) == k && d.channels.None?
    ensures Collect(key, details, k).Some? ==>
              (Collect(key, details, k).value.restricted <==> exists d :: d in details && key(d.model) == k && d.channels != Some([]))
    ensures Collect(key, details, k).Some? ==> forall channel ::
              channel in Collect(key, details, k).value.ids <==> exists d :: d in details && Binds(key, d, k, channel)
  {
    if details != [] {
      var n := |details| - 1;
      var before, last := Collect(key, details[..n], k), details[n];
      CollectMeans(key, details[..n], k);
      assert details == details[..n] + [last] && last in details;
      if Collect(key, details, k).Some? {
        forall channel
          ensures channel in Collect(key, details, k).value.ids <==> exists d :: d in details && Binds(key, d, k, channel)
        {
          assert (exists d :: d in details && Binds(key, d, k, channel)) <==>
                 Binds(key, last, k, channel) || exists d :: d in details[..n] && Binds(key, d, k, channel);
        }
      }
    }
  }

  // The channels of a model are those, ascending, once each and without zero.
  lemma ModelChannelsMean(key: string -> string, details: seq<Detail>, model: string)
    requires key(model) != "" && ModelChannels(key, details, model).Some?
    ensures var c := ModelChannels(key, details, model).value;
            && AccessIndex.Ascending(c.ids)
            && (forall channel :: channel in c.ids <==> channel != 0 && exists d :: d in details && Binds(key, d, key(model), channel))
            && (c.restricted <==> exists d :: d in details && key(d.model) == key(model) && d.channels != Some([]))
  {
    CollectMeans(key, details, key(model));
  }

  // -- Credentials ---------------------------------------------------------------------------

  lemma {:induction false} OfMembers(table: seq<Binding>, channels: set<nat>, row: Binding)
    ensures row in Of(table, channels) <==> row in table && row.channel in channels
  {
    if table != [] {
      var n := |table| - 1;
      OfMembers(table[..n], channels, row);
      assert table == table[..n] + [table[n]];
    }
  }

  // A credential is listed exactly if it is not empty and some row has it.
  lemma {:induction false} IdentifiersMembers(rows: seq<Binding>, auth: string)
    ensures auth in Identifiers(rows) <==> auth != "" && exists row :: row in rows && row.auth == auth
  {
    if rows != [] {
      var n := |rows| - 1;
      assert rows == rows[..n] + [rows[n]] && rows[n] in rows;
      IdentifiersMembers(rows[..n], auth);
      IdentifiersMembers(rows[..n], rows[n].auth);
    }
  }

  // x appears in the list before y does.
  ghost predicate Before(list: seq<string>, x: string, y: string) { exists n :: 0 <= n < |list| && list[n] == x && y !in list[..n + 1] }

  // picked has some members of the list, once each, in the order of their first appearance.
  ghost predicate InOrder(picked: seq<string>, list: seq<string>) {
    forall i, j :: 0 <= i < j < |picked| ==> Before(list, picked[i], picked[j])
  }

  function Names(rows: seq<Binding>): seq<string> { seq(|rows|, i requires 0 <= i < |rows| => rows[i].auth) }

  lemma InOrderNext(picked: seq<string>, list: seq<string>, next: string)
    requires InOrder(picked, list) && forall x :: x in picked ==> x in list
    ensures InOrder(picked, list + [next])
    ensures next !in list ==> InOrder(picked + [next], list + [next])
  {
    var longer := list + [next];
    forall x, y | Before(list, x, y) ensures Before(longer, x, y) {
      var n :| 0 <= n < |list| && list[n] == x && y !in list[..n + 1];
      assert longer[n] == x && longer[..n + 1] == list[..n + 1];
    }
    forall x | x in picked && next !in list ensures Before(longer, x, next) {
      var n :| 0 <= n < |list| && list[n] == x;
      assert longer[n] == x && longer[..n + 1] == list[..n + 1];
    }
  }

  // Credentials are listed once each, in the order in which the rows first have them.
  lemma {:induction false} IdentifiersOrder(rows: seq<Binding>)
    ensures InOrder(Identifiers(rows), Names(rows))
  {
    if rows != [] {
      var n := |rows| - 1;
      var before, next := Names(rows[..n]), rows[n].auth;
      IdentifiersOrder(rows[..n]);
      assert Names(rows) == before + [next];
      forall x ensures x in Identifiers(rows[..n]) <==> x != "" && x in before { IdentifiersNamed(rows[..n], x); }
      InOrderNext(Identifiers(rows[..n]), before, next);
    }
  }

  lemma IdentifiersNamed(rows: seq<Binding>, x: string)
    ensures x in Identifiers(rows) <==> x != "" && x in Names(rows)
  {
    IdentifiersMembers(rows, x);
    if row :| row in rows && row.auth == x {
      var i :| 0 <= i < |rows| && rows[i] == row;
      assert Names(rows)[i] == x;
    }
    if i :| 0 <= i < |rows| && Names(rows)[i] == x { assert rows[i] in rows; }
  }

  // So does the intersection, in the order of the base credentials.
  lemma {:induction false} IntersectionOrder(base: seq<string>, others: seq<string>)
    ensures InOrder(Intersection(base, others), base)
  {
    if base != [] {
      var n := |base| - 1;
      IntersectionOrder(base[..n], others);
      assert base == base[..n] + [base[n]];
      forall x ensures x in Intersection(base[..n], others) <==> x != "" && x in base[..n] && x in others {
        IntersectionMembers(base[..n], others, x);
      }
      InOrderNext(Intersection(base[..n], others), base[..n], base[n]);
    }
  }

  // -- The decision --------------------------------------------------------------------------

  // A row gives this credential one of these channels.
  ghost predicate Reaches(table: seq<Binding>, channels: set<nat>, auth: string) {
    exists row :: row in table && row.auth == auth && row.channel in channels
  }

  lemma ListedAmong(table: seq<Binding>, looked: set<nat>, channels: set<nat>, auth: string)
    requires channels <= looked
    ensures auth in Identifiers(Of(Of(table, looked), channels)) <==> auth != "" && Reaches(table, channels, auth)
  {
    OfTwice(table, looked, channels);
    IdentifiersMembers(Of(table, channels), auth);
    forall row ensures row in Of(table, channels) <==> row in table && row.channel in channels { OfMembers(table, channels, row); }
  }

  // No detail of the model's key is undecodable.
  ghost predicate Decodable(key: string -> string, details: seq<Detail>, model: string) {
    key(model) == "" || forall d :: d in details && key(d.model) == key(model) ==> d.channels.Some?
  }

  // No detail binds the model to channels.
  ghost predicate Unbound(key: string -> string, details: seq<Detail>, model: string) {
    key(model) == "" || forall d :: d in details && key(d.model) == key(model) ==> d.channels == Some([])
  }

  // A row gives the credential a channel that one of the model's details binds.
  ghost predicate BoundTo(key: string -> string, details: seq<Detail>, table: seq<Binding>, model: string, auth: string) {
    exists d, row :: d in details && row in table && row.auth == auth && row.channel != 0 && Binds(key, d, key(model), row.channel)
  }

  lemma ReachesBound(key: string -> string, details: seq<Detail>, table: seq<Binding>, model: string, auth: string)
    requires key(model) != "" && ModelChannels(key, details, model).Some?
    ensures Reaches(table, SetOf(ModelChannels(key, details, model).value.ids), auth) <==> BoundTo(key, details, table, model, auth)
  {
    ModelChannelsMean(key, details, model);
    var ids := ModelChannels(key, details, model).value.ids;
    if row :| row in table && row.auth == auth && row.channel in SetOf(ids) {
      var d :| d in details && Binds(key, d, key(model), row.channel);
      assert BoundTo(key, details, table, model, auth);
    }
  }

  // What dispatch permits: the details of the model's key decode; an API key with base channels reaches the
  // credential through one of them; and if a detail binds the model to channels, the credential has one of those.
  lemma DispatchMeans(key: string -> string, details: seq<Detail>, base: seq<nat>, table: seq<Binding>, model: string, auth: string)
    requires AccessIndex.Ascending(base) && 0 !in base
    ensures var answer := Dispatch(key, details, base, table, model);
            answer.Some? && Permits(answer.value, auth) <==>
              && Decodable(key, details, model)
              && (base == [] || (auth != "" && Reaches(table, SetOf(base), auth)))
              && (Unbound(key, details, model) || (auth != "" && BoundTo(key, details, table, model, auth)))
  {
    NormalizedTwice(base);
    CollectMeans(key, details, key(model));
    var c := ModelChannels(key, details, model);
    if c.Some? {
      var looked := if c.value.restricted then SetOf(base) + SetOf(c.value.ids) else SetOf(base);
      ListedAmong(table, looked, SetOf(base), auth);
      if c.value.restricted {
        ModelChannelsMean(key, details, model);
        NormalizedTwice(c.value.ids);
        ListedAmong(table, looked, SetOf(c.value.ids), auth);
        ReachesBound(key, details, table, model, auth);
        if base != [] {
          IntersectionMembers(BaseAuths(base, table, looked).value, Identifiers(Of(Of(table, looked), SetOf(Normalized(c.value.ids)))), auth);
        }
      }
    }
  }

  // The same of the catalog policy, for every model the index is right about: such a model also has to be
  // listed if the API key has model groups.
  lemma CatalogMeans(key: string -> string, details: seq<Detail>, restricted: bool, base: seq<nat>, table: seq<Binding>,
      access: Access, index: map<string, seq<string>>, model: string, auth: string)
    requires Bound(details, restricted, base, table) && AccessFor(key, details, restricted, base, table, access, index)
    requires Indexable(key, details, model)
    ensures Allows(key, access, auth, model) <==>
              && (restricted ==> key(model) != "" && exists d :: d in details && key(key(d.model)) == key(model))
              && Decodable(key, details, model)
              && (base == [] || (auth != "" && Reaches(table, SetOf(base), auth)))
              && (Unbound(key, details, model) || (auth != "" && BoundTo(key, details, table, model, auth)))
  {
    AllowsExact(key, details, restricted, base, table, access, index, model, auth);
    DispatchMeans(key, details, base, table, model, auth);
  }

  // -- The list of models --------------------------------------------------------------------

  ghost predicate Apart(lower: char -> char, names: seq<string>) {
    forall i, j :: 0 <= i < j < |names| ==> Lower(lower, names[i]) != Lower(lower, names[j])
  }

  // No two listed names differ in case only.
  lemma {:induction false} ModelNamesApart(rt: Runtime, lower: char -> char, details: seq<Detail>)
    ensures Apart(lower, ModelNames(rt, lower, details))
  {
    if details != [] {
      var n := |details| - 1;
      var before, name := ModelNames(rt, lower, details[..n]), Canonical(rt, details[n].model);
      ModelNamesApart(rt, lower, details[..n]);
      if Lower(lower, name) !in Lowered(lower, before) { ApartNext(lower, before, name); }
    }
  }

  lemma ApartNext(lower: char -> char, names: seq<string>, name: string)
    requires Apart(lower, names) && Lower(lower, name) !in Lowered(lower, names)
    ensures Apart(lower, names + [name])
  {
    forall i | 0 <= i < |names| ensures Lower(lower, names[i]) != Lower(lower, name) {
      assert names[i] in names;
    }
  }

  // Each is the canonical name of a detail.
  lemma {:induction false} ModelNamesFrom(rt: Runtime, lower: char -> char, details: seq<Detail>, name: string)
    requires name in ModelNames(rt, lower, details)
    ensures name != "" && exists d :: d in details && Canonical(rt, d.model) == name
  {
    var n := |details| - 1;
    assert details == details[..n] + [details[n]] && details[n] in details;
    if name in ModelNames(rt, lower, details[..n]) { ModelNamesFrom(rt, lower, details[..n], name); }
  }

  // Every detail with a canonical name has it listed, in some case.
  lemma {:induction false} ModelNamesCover(rt: Runtime, lower: char -> char, details: seq<Detail>, d: Detail)
    requires d in details && Canonical(rt, d.model) != ""
    ensures Lower(lower, Canonical(rt, d.model)) in Lowered(lower, ModelNames(rt, lower, details))
  {
    var n := |details| - 1;
    var before, name := ModelNames(rt, lower, details[..n]), Canonical(rt, details[n].model);
    assert details == details[..n] + [details[n]];
    assert Lowered(lower, before + [name]) == Lowered(lower, before) + {Lower(lower, name)};
    if d in details[..n] { ModelNamesCover(rt, lower, details[..n], d); }
  }
}
