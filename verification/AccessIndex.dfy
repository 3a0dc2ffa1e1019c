/** The batched permission index of an API key against the per-model resolver that dispatch uses. Both restrict a model
    to the credentials of the channels its details are bound to. */
module AccessIndex {
  import opened Wrappers

  // A model group detail; its channels are None if they cannot be decoded, and normalised otherwise.
  datatype Detail = Detail(model: string, channels: Option<seq<nat>>)

  // A credential bound to a channel, with its identifier trimmed.
  datatype Binding = Binding(channel: nat, auth: string)

  // -- Normalising identifiers -------------------------------------------------------------

  predicate Ascending(ids: seq<nat>) { forall i, j :: 0 <= i < j < |ids| ==> ids[i] < ids[j] }

  function Insert(ids: seq<nat>, id: nat): (r: seq<nat>)
    requires Ascending(ids)
    ensures Ascending(r) && forall x :: x in r <==> x == id || x in ids
  {
    if ids == [] || id < ids[0] then [id] + ids
    else if id == ids[0] then ids
    else
      assert ids == [ids[0]] + ids[1..];
      var rest := Insert(ids[1..], id);
      assert forall j :: 0 <= j < |rest| ==> rest[j] in rest;
      [ids[0]] + rest
  }

  // Sorted, without zeros and repetitions.
  function Normalized(ids: seq<nat>): (r: seq<nat>)
    ensures Ascending(r) && forall x :: x in r <==> x != 0 && x in ids
  {
    if ids == [] then []
    else
      assert ids == ids[..|ids| - 1] + [ids[|ids| - 1]];
      if ids[|ids| - 1] == 0 then Normalized(ids[..|ids| - 1]) else Insert(Normalized(ids[..|ids| - 1]), ids[|ids| - 1])
  }

  // -- Channels of a model -----------------------------------------------------------------

  datatype Channels = Channels(ids: seq<nat>, restricted: bool)

  // The channels of the details with this key, in order; None if one of them cannot be decoded.
  function Collect(key: string -> string, details: seq<Detail>, k: string): Option<Channels> {
    if details == [] then Some(Channels([], false))
    else match Collect(key, details[..|details| - 1], k)
      case None => None
      case Some(before) =>
        var d := details[|details| - 1];
        if key(d.model) != k then Some(before)
        else if d.channels.None? then None
        else if d.channels.value == [] then Some(before)
        else Some(Channels(before.ids + d.channels.value, true))
  }

  // modelChannelGroupIDsFromDetails, which takes the key of what it is given.
  function ModelChannels(key: string -> string, details: seq<Detail>, model: string): Option<Channels> {
    if key(model) == "" then Some(Channels([], false))
    else match Collect(key, details, key(model))
      case None => None
      case Some(c) => Some(Channels(Normalized(c.ids), c.restricted))
  }

  method ModelChannelGroupIDs(key: string -> string, details: seq<Detail>, model: string) returns (r: Option<Channels>)
    ensures r == ModelChannels(key, details, model)
  {
    var modelKey := key(model);
    if modelKey == "" { return Some(Channels([], false)); }
    var ids: seq<nat> := [];
    var restricted := false;
    var i := 0;
    while i < |details|
      invariant 0 <= i <= |details| && Collect(key, details[..i], modelKey) == Some(Channels(ids, restricted))
    {
      CollectNext(key, details, modelKey, i);
      if key(details[i].model) == modelKey {
        if details[i].channels.None? {
          CollectFails(key, details, modelKey, i + 1);
          return None;
        }
        if details[i].channels.value != [] {
          restricted := true;
          ids := ids + details[i].channels.value;
        }
      }
      i := i + 1;
    }
    assert details[..|details|] == details;
    r := Some(Channels(Normalized(ids), restricted));
  }

  lemma CollectNext(key: string -> string, details: seq<Detail>, k: string, i: nat)
    requires i < |details|
    ensures details[..i + 1][..i] == details[..i] && details[..i + 1][i] == details[i]
  {
  }

  lemma {:induction false} CollectFails(key: string -> string, details: seq<Detail>, k: string, i: nat)
    requires i <= |details| && Collect(key, details[..i], k) == None
    ensures Collect(key, details, k) == None
    decreases |details| - i
  {
    if i == |details| {
      assert details[..i] == details;
    } else {
      CollectNext(key, details, k, i);
      CollectFails(key, details, k, i + 1);
    }
  }

  // The details of one key.
  function OfKey(key: string -> string, details: seq<Detail>, k: string): seq<Detail> {
    if details == [] then []
    else OfKey(key, details[..|details| - 1], k) + (if key(details[|details| - 1].model) == k then [details[|details| - 1]] else [])
  }

  // Grouping first changes nothing for the details of one key.
  lemma {:induction false} CollectGrouped(key: string -> string, details: seq<Detail>, k: string)
    ensures Collect(key, OfKey(key, details, k), k) == Collect(key, details, k)
  {
    if details != [] {
      var before := OfKey(key, details[..|details| - 1], k);
      CollectGrouped(key, details[..|details| - 1], k);
      if key(details[|details| - 1].model) == k {
        assert (before + [details[|details| - 1]])[..|before|] == before;
      } else {
        assert before + [] == before;
      }
    }
  }

  // A group collected under another key than its own is empty.
  lemma {:induction false} CollectForeign(key: string -> string, details: seq<Detail>, k: string, other: string)
    requires other != k
    ensures Collect(key, OfKey(key, details, k), other) == Some(Channels([], false))
  {
    if details != [] {
      var before := OfKey(key, details[..|details| - 1], k);
      CollectForeign(key, details[..|details| - 1], k, other);
      if key(details[|details| - 1].model) == k {
        assert (before + [details[|details| - 1]])[..|before|] == before;
      } else {
        assert before + [] == before;
      }
    }
  }

  // -- Credentials of channels ---------------------------------------------------------------

  // The query answers rows in channel order.
  ghost predicate ByChannel(table: seq<Binding>) { forall i, j :: 0 <= i < j < |table| ==> table[i].channel <= table[j].channel }

  function SetOf(ids: seq<nat>): set<nat> { set id | id in ids }

  // The rows of some channels.
  function Of(table: seq<Binding>, channels: set<nat>): seq<Binding> {
    if table == [] then [] else
      Of(table[..|table| - 1], channels)
        + (if table[|table| - 1].channel in channels then [table[|table| - 1]] else [])
  }

  // Identifiers in order of first appearance, without empty ones.
  function Identifiers(rows: seq<Binding>): seq<string> {
    if rows == [] then []
    else
      var before := Identifiers(rows[..|rows| - 1]);
      var auth := rows[|rows| - 1].auth;
      if auth == "" || auth in before then before else before + [auth]
  }

  lemma OfNext(rows: seq<Binding>, row: Binding, channels: set<nat>)
    ensures Of(rows + [row], channels) == if row.channel in channels then Of(rows, channels) + [row] else Of(rows, channels)
  {
    assert (rows + [row])[..|rows|] == rows && Of(rows, channels) + [] == Of(rows, channels);
  }

  lemma PassNext(rows: seq<Binding>, i: nat, channels: set<nat>)
    requires i < |rows|
    ensures var before := Identifiers(Of(rows[..i], channels));
            Identifiers(Of(rows[..i + 1], channels)) ==
            if rows[i].channel in channels && rows[i].auth != "" && rows[i].auth !in before then before + [rows[i].auth] else before
  {
    assert rows[..i + 1] == rows[..i] + [rows[i]];
    OfNext(rows[..i], rows[i], channels);
    IdentifiersNext(Of(rows[..i], channels), rows[i]);
  }

  // allowedAuthIDsFromChannelGroupDetails: one pass over the rows.
  method AllowedAuthIDs(rows: seq<Binding>, ids: seq<nat>) returns (allowed: seq<string>)
    ensures allowed == Identifiers(Of(rows, SetOf(Normalized(ids))))
  {
    ghost var channels := SetOf(Normalized(ids));
    allowed := [];
    var i := 0;
    while i < |rows|
      invariant 0 <= i <= |rows| && allowed == Identifiers(Of(rows[..i], channels))
    {
      PassNext(rows, i, channels);
      if rows[i].channel in Normalized(ids) && rows[i].auth != "" && rows[i].auth !in allowed {
        allowed := allowed + [rows[i].auth];
      }
      i := i + 1;
    }
    assert rows[..|rows|] == rows;
  }

  // The rows of the channels, channel by channel.
  function Chained(table: seq<Binding>, ids: seq<nat>): seq<Binding> {
    if ids == [] then [] else Chained(table, ids[..|ids| - 1]) + Of(table, {ids[|ids| - 1]})
  }

  lemma {:induction false} OfTwice(table: seq<Binding>, wide: set<nat>, narrow: set<nat>)
    requires narrow <= wide
    ensures Of(Of(table, wide), narrow) == Of(table, narrow)
  {
    if table != [] {
      var before := Of(table[..|table| - 1], wide);
      OfTwice(table[..|table| - 1], wide, narrow);
      if table[|table| - 1].channel in wide {
        assert (before + [table[|table| - 1]])[..|before|] == before;
      } else {
        assert before + [] == before;
      }
    }
  }

  // In a table sorted by channel, the rows of a set of channels end with those of the last one.
  lemma {:induction false} OfLast(table: seq<Binding>, channels: set<nat>, last: nat)
    requires ByChannel(table) && forall c :: c in channels ==> c < last
    ensures Of(table, channels + {last}) == Of(table, channels) + Of(table, {last})
  {
    if table != [] {
      var n := |table| - 1;
      OfLast(table[..n], channels, last);
      if table[n].channel in channels { NoneOf(table[..n], last, table[n].channel); }
    }
  }

  lemma {:induction false} NoneOf(table: seq<Binding>, channel: nat, bound: nat)
    requires bound < channel && forall i :: 0 <= i < |table| ==> table[i].channel <= bound
    ensures Of(table, {channel}) == []
  {
    if table != [] { NoneOf(table[..|table| - 1], channel, bound); }
  }

  // Visiting ascending channels one by one is one pass over the sorted table.
  lemma {:induction false} ChainedIsOnePass(table: seq<Binding>, ids: seq<nat>)
    requires ByChannel(table) && Ascending(ids)
    ensures Chained(table, ids) == Of(table, SetOf(ids))
  {
    if ids == [] {
      NothingOf(table);
      assert SetOf(ids) == {};
    } else {
      var n := |ids| - 1;
      ChainedIsOnePass(table, ids[..n]);
      OfLast(table, SetOf(ids[..n]), ids[n]);
      assert SetOf(ids) == SetOf(ids[..n]) + {ids[n]} by {
        assert ids == ids[..n] + [ids[n]];
      }
    }
  }

  lemma {:induction false} NothingOf(table: seq<Binding>)
    ensures Of(table, {}) == []
  {
    if table != [] { NothingOf(table[..|table| - 1]); }
  }

  // -- The resolver and the index ------------------------------------------------------------

  // What both know about an API key: its base channels, its model details, and the channel table.
  // Model restrictions: None where a model is not restricted to channels, else its credentials.
  function Resolve(key: string -> string, details: seq<Detail>, base: seq<nat>, table: seq<Binding>,
      model: string): Option<Option<seq<string>>> {
    match ModelChannels(key, details, model)
    case None => None
    case Some(c) =>
      if !c.restricted then Some(None)
      else Some(Some(Identifiers(Of(Of(table, SetOf(base) + SetOf(c.ids)), SetOf(Normalized(c.ids))))))
  }

  lemma {:induction false} NormalizedTwice(ids: seq<nat>)
    requires Ascending(ids) && 0 !in ids
    ensures Normalized(ids) == ids
  {
    AscendingUnique(Normalized(ids), ids);
  }

  lemma TailMembers(a: seq<nat>)
    requires Ascending(a) && a != []
    ensures forall x :: x in a ==> x >= a[0]
    ensures forall x :: x in a[1..] <==> x in a && x != a[0]
  {
    assert a == [a[0]] + a[1..];
  }

  lemma {:induction false} AscendingUnique(a: seq<nat>, b: seq<nat>)
    requires Ascending(a) && Ascending(b) && forall x :: x in a <==> x in b
    ensures a == b
  {
    assert a != [] ==> a[0] in a;
    assert b != [] ==> b[0] in b;
    if a != [] && b != [] {
      TailMembers(a);
      TailMembers(b);
      AscendingUnique(a[1..], b[1..]);
    }
  }

  // The keys of the details.
  function Keys(key: string -> string, details: seq<Detail>): set<string> { set d | d in details :: key(d.model) }

  // The channels the index finds for the group of one key.
  function Grouped(key: string -> string, details: seq<Detail>, k: string): Option<Channels> { ModelChannels(key, OfKey(key,
      details, k), k) }

  // For a key that is its own key, the group has the channels of the model, or fails as it does; for
  // any other key, it is unrestricted.
  lemma GroupedAgrees(key: string -> string, details: seq<Detail>, model: string)
    ensures var k := key(model);
            Grouped(key, details, k) == if key(k) == k then ModelChannels(key, details, model) else Some(Channels([], false))
  {
    var k := key(model);
    if key(k) == k {
      CollectGrouped(key, details, k);
    } else if key(k) != "" {
      CollectForeign(key, details, k, key(k));
    }
  }

  // Appends the identifiers that are not there yet.
  method ExtendWith(before: seq<string>, list: seq<string>) returns (allowed: seq<string>)
    ensures allowed == Extend(before, list)
  {
    allowed := before;
    var j := 0;
    while j < |list|
      invariant 0 <= j <= |list| && allowed == Extend(before, list[..j])
    {
      assert list[..j + 1][..j] == list[..j];
      if list[j] !in allowed { allowed := allowed + [list[j]]; }
      j := j + 1;
    }
    assert list[..|list|] == list;
  }

  lemma ChainStep(table: seq<Binding>, ids: seq<nat>, i: nat)
    requires i < |ids|
    ensures Identifiers(Chained(table, ids[..i + 1])) == Extend(Identifiers(Chained(table, ids[..i])), Auths(Of(table, {ids[i]})))
  {
    assert ids[..i + 1][..i] == ids[..i] && ids[..i + 1][i] == ids[i];
    IdentifiersExtend(Chained(table, ids[..i]), Of(table, {ids[i]}));
  }

  // authIDsForChannels over the per-channel lists.
  method AuthIDsForChannels(ids: seq<nat>, lists: map<nat, seq<string>>, ghost table: seq<Binding>) returns (allowed: seq<string>)
    requires Lists(lists, table)
    ensures allowed == Identifiers(Chained(table, ids))
  {
    allowed := [];
    var i := 0;
    while i < |ids|
      invariant 0 <= i <= |ids| && allowed == Identifiers(Chained(table, ids[..i]))
    {
      ChainStep(table, ids, i);
      allowed := ExtendWith(allowed, Listed(lists, ids[i]));
      i := i + 1;
    }
    assert ids[..|ids|] == ids;
  }

  function Listed(lists: map<nat, seq<string>>, c: nat): seq<string> { if c in lists then lists[c] else [] }

  // The identifiers of rows, with repetitions.
  function Auths(rows: seq<Binding>): seq<string> {
    if rows == [] then []
    else Auths(rows[..|rows| - 1]) + (if rows[|rows| - 1].auth == "" then [] else [rows[|rows| - 1].auth])
  }

  function Extend(allowed: seq<string>, auths: seq<string>): seq<string> {
    if auths == [] then allowed
    else
      var before := Extend(allowed, auths[..|auths| - 1]);
      if auths[|auths| - 1] in before then before else before + [auths[|auths| - 1]]
  }

  lemma IdentifiersNext(rows: seq<Binding>, row: Binding)
    ensures Identifiers(rows + [row]) == if row.auth == ""
        || row.auth in Identifiers(rows) then Identifiers(rows) else Identifiers(rows) + [row.auth]
  {
    assert (rows + [row])[..|rows|] == rows;
  }

  lemma AuthsNext(rows: seq<Binding>, row: Binding)
    ensures Auths(rows + [row]) == if row.auth == "" then Auths(rows) else Auths(rows) + [row.auth]
  {
    assert (rows + [row])[..|rows|] == rows && Auths(rows) + [] == Auths(rows);
  }

  lemma ExtendNext(allowed: seq<string>, auths: seq<string>, auth: string)
    ensures Extend(allowed, auths + [auth]) == if auth in Extend(allowed, auths) then Extend(allowed,
        auths) else Extend(allowed, auths) + [auth]
  {
    assert (auths + [auth])[..|auths|] == auths;
  }

  lemma {:induction false} IdentifiersExtend(first: seq<Binding>, rows: seq<Binding>)
    ensures Identifiers(first + rows) == Extend(Identifiers(first), Auths(rows))
  {
    if rows == [] {
      assert first + rows == first;
    } else {
      var before, last := rows[..|rows| - 1], rows[|rows| - 1];
      IdentifiersExtend(first, before);
      assert rows == before + [last] && first + rows == first + before + [last];
      IdentifiersNext(first + before, last);
      AuthsNext(before, last);
      if last.auth != "" { ExtendNext(Identifiers(first), Auths(before), last.auth); }
    }
  }

  ghost predicate Lists(lists: map<nat, seq<string>>, rows: seq<Binding>) { forall c :: Listed(lists, c) == Auths(Of(rows, {c})) }

  function Appended(lists: map<nat, seq<string>>, row: Binding): map<nat, seq<string>> {
    if row.auth == "" then lists else lists[row.channel := Listed(lists, row.channel) + [row.auth]]
  }

  lemma ListsStep(lists: map<nat, seq<string>>, rows: seq<Binding>, i: nat)
    requires i < |rows| && Lists(lists, rows[..i])
    ensures Lists(Appended(lists, rows[i]), rows[..i + 1])
  {
    forall c ensures Listed(Appended(lists, rows[i]), c) == Auths(Of(rows[..i + 1], {c})) {
      ListStep(rows, i, c);
      AppendedList(lists, rows[i], c);
    }
  }

  lemma AppendedList(lists: map<nat, seq<string>>, row: Binding, c: nat)
    ensures Listed(Appended(lists, row), c) == Listed(lists, c) + (if row.channel == c && row.auth != "" then [row.auth] else [])
  {
    assert Listed(lists, c) + [] == Listed(lists, c);
  }

  // The per-channel lists, from the rows in the order of the query.
  method ListByChannel(rows: seq<Binding>) returns (lists: map<nat, seq<string>>)
    ensures Lists(lists, rows)
  {
    lists := map[];
    var i := 0;
    assert Lists(lists, rows[..0]);
    while i < |rows|
      invariant 0 <= i <= |rows| && Lists(lists, rows[..i])
    {
      ListsStep(lists, rows, i);
      if rows[i].auth != "" {
        lists := lists[rows[i].channel := Listed(lists, rows[i].channel) + [rows[i].auth]];
      }
      i := i + 1;
    }
    assert rows[..|rows|] == rows;
  }

  lemma ListStep(rows: seq<Binding>, i: nat, c: nat)
    requires i < |rows|
    ensures Auths(Of(rows[..i + 1], {c})) ==
            Auths(Of(rows[..i], {c})) + (if rows[i].channel == c && rows[i].auth != "" then [rows[i].auth] else [])
  {
    var before := Of(rows[..i], {c});
    assert rows[..i + 1][..i] == rows[..i] && rows[..i + 1][i] == rows[i];
    assert before + [] == before && (before + [rows[i]])[..|before|] == before;
    assert Auths(before) + [] == Auths(before);
  }

  lemma GroupStep(key: string -> string, details: seq<Detail>, i: nat)
    requires i < |details|
    ensures Keys(key, details[..i + 1]) == Keys(key, details[..i]) + {key(details[i].model)}
    ensures forall k :: OfKey(key, details[..i + 1], k) == OfKey(key, details[..i], k) + (if key(details[i].model)
        == k then [details[i]] else [])
  {
    assert details[..i + 1][..i] == details[..i] && details[..i + 1][i] == details[i];
    assert details[..i + 1] == details[..i] + [details[i]];
  }

  function GroupOf(groups: map<string, seq<Detail>>, k: string): seq<Detail> { if k in groups then groups[k] else [] }

  method GroupDetails(key: string -> string, details: seq<Detail>) returns (groups: map<string, seq<Detail>>)
    ensures groups.Keys == Keys(key, details) && forall k :: GroupOf(groups, k) == OfKey(key, details, k)
  {
    groups := map[];
    var i := 0;
    while i < |details|
      invariant 0 <= i <= |details| && groups.Keys == Keys(key, details[..i])
      invariant forall k :: GroupOf(groups, k) == OfKey(key, details[..i], k)
    {
      var k := key(details[i].model);
      GroupStep(key, details, i);
      ghost var before := groups;
      groups := groups[k := GroupOf(groups, k) + [details[i]]];
      forall other ensures GroupOf(groups, other) == OfKey(key, details[..i + 1], other) {
        assert GroupOf(before, other) == OfKey(key, details[..i], other);
      }
      i := i + 1;
    }
    assert details[..|details|] == details;
  }

  ghost predicate Indexes(key: string -> string, details: seq<Detail>, table: seq<Binding>, index: map<string, seq<string>>) {
    && (forall k :: k in Keys(key, details) ==> Grouped(key, details, k).Some?)
    && (forall k :: k in index <==> k in Keys(key, details) && Grouped(key, details, k).value.restricted)
    && (forall k :: k in index ==> index[k] == Identifiers(Of(table, SetOf(Grouped(key, details, k).value.ids))))
  }

  // The channels of the restricted groups, and all channels there are to look up.
  ghost predicate Looked(key: string -> string, details: seq<Detail>, channels: map<string, seq<nat>>, all: set<nat>, done: set<string>) {
    && (forall k :: k in done ==> Grouped(key, details, k).Some?)
    && (forall k :: k in channels <==> k in done && Grouped(key, details, k).value.restricted)
    && (forall k :: k in channels ==> channels[k] == Grouped(key, details, k).value.ids && SetOf(channels[k]) <= all)
  }

  lemma LookedStep(key: string -> string, details: seq<Detail>, channels: map<string, seq<nat>>, all: set<nat>,
      done: set<string>, k: string)
    requires Looked(key, details, channels, all, done) && k !in done && Grouped(key, details, k).Some?
    ensures var c := Grouped(key, details, k).value;
            Looked(key, details, if c.restricted then channels[k := c.ids] else channels, if c.restricted then all
                + SetOf(c.ids) else all, done + {k})
  {
  }

  method LookUp(key: string -> string, details: seq<Detail>, base: seq<nat>) returns (failed: bool, channels: map<string,
      seq<nat>>, all: set<nat>)
    ensures failed <==> exists k :: k in Keys(key, details) && Grouped(key, details, k).None?
    ensures !failed ==> Looked(key, details, channels, all, Keys(key, details)) && SetOf(base) <= all
  {
    var groups := GroupDetails(key, details);
    failed, channels, all := false, map[], SetOf(base);
    ghost var done: set<string> := {};
    var left := groups.Keys;
    while left != {}
      invariant left !! done && left + done == Keys(key, details) && !failed
      invariant Looked(key, details, channels, all, done) && SetOf(base) <= all
      decreases left
    {
      var k: string :| k in left;
      var found := ModelChannelGroupIDs(key, GroupOf(groups, k), k);
      assert found == Grouped(key, details, k) && k in Keys(key, details);
      if found.None? { return true, channels, all; }
      LookedStep(key, details, channels, all, done, k);
      if found.value.restricted {
        channels := channels[k := found.value.ids];
        all := all + SetOf(found.value.ids);
      }
      left, done := left - {k}, done + {k};
    }
    assert done == Keys(key, details);
  }

  // The index: a credential list for every restricted model key; None if a group cannot be decoded.
  // With it come the credentials of the base channels; looked are the channels that were looked up.
  method BuildIndex(key: string -> string, details: seq<Detail>, base: seq<nat>,
      table: seq<Binding>) returns (index: Option<map<string, seq<string>>>, auths: seq<string>, ghost looked: set<nat>)
    requires ByChannel(table)
    ensures index.None? <==> exists k :: k in Keys(key, details) && Grouped(key, details, k).None?
    ensures index.Some? ==> Indexes(key, details, table, index.value)
    ensures index.Some? ==> SetOf(base) <= looked && auths == Identifiers(Chained(Of(table, looked), base))
  {
    var failed, channels, all := LookUp(key, details, base);
    auths, looked := [], all;
    if failed { return None, auths, looked; }
    var lists := ListByChannel(Of(table, all));   // one query for all channels
    var result: map<string, seq<string>> := map[];
    var left := channels.Keys;
    while left != {}
      invariant left <= channels.Keys && result.Keys == channels.Keys - left
      invariant forall k :: k in result ==> result[k] == Identifiers(Of(table, SetOf(Grouped(key, details, k).value.ids)))
      decreases left
    {
      var k: string :| k in left;
      var found := AuthIDsForChannels(channels[k], lists, Of(table, all));
      AuthsOfGroup(key, details, k, table, all);
      result := result[k := found];
      left := left - {k};
    }
    auths := AuthIDsForChannels(base, lists, Of(table, all));
    index := Some(result);
  }

  // Looking channels up one by one among the rows of all channels gives the rows of these channels.
  lemma AuthsOfGroup(key: string -> string, details: seq<Detail>, k: string, table: seq<Binding>, all: set<nat>)
    requires ByChannel(table) && Grouped(key, details, k).Some? && SetOf(Grouped(key, details, k).value.ids) <= all
    ensures Chained(Of(table, all), Grouped(key, details, k).value.ids) == Of(table, SetOf(Grouped(key, details, k).value.ids))
  {
    var ids := Grouped(key, details, k).value.ids;
    OfByChannel(table, all);
    GroupedAscending(key, details, k);
    ChainedIsOnePass(Of(table, all), ids);
    OfTwice(table, all, SetOf(ids));
  }

  lemma {:induction false} OfByChannel(table: seq<Binding>, channels: set<nat>)
    requires ByChannel(table)
    ensures ByChannel(Of(table, channels)) && forall b :: b in Of(table, channels) ==> b in table
  {
    if table != [] {
      var n := |table| - 1;
      OfByChannel(table[..n], channels);
      assert table == table[..n] + [table[n]];
      var before := Of(table[..n], channels);
      assert forall i :: 0 <= i < |before| ==> before[i] in before;
    }
  }

  lemma GroupedAscending(key: string -> string, details: seq<Detail>, k: string)
    ensures Grouped(key, details, k).Some? ==> Ascending(Grouped(key, details, k).value.ids) && 0 !in Grouped(key, details, k).value.ids
  {
  }

  // What the index says about a model, in the resolver's terms.
  function Indexed(key: string -> string, index: map<string, seq<string>>, model: string): Option<seq<string>> {
    if key(model) in index then Some(index[key(model)]) else None
  }

  // For every model whose key is its own key, the index gives what the resolver gives: the same
  // restriction flag and, if restricted, the same credentials in the same order.
  lemma IndexAgrees(key: string -> string, details: seq<Detail>, base: seq<nat>, table: seq<Binding>, index: map<string,
      seq<string>>, model: string)
    requires key(key(model)) == key(model) && Indexes(key, details, table, index)
    ensures Resolve(key, details, base, table, model) == Some(Indexed(key, index, model))
  {
    var k := key(model);
    GroupedAgrees(key, details, model);
    if k !in Keys(key, details) { Unlisted(key, details, k); }
    var c := ModelChannels(key, details, model);
    if c.Some? && c.value.restricted {
      NormalizedTwice(c.value.ids);
      OfTwice(table, SetOf(base) + SetOf(c.value.ids), SetOf(c.value.ids));
    }
  }

  // Both also give the same credentials for the base channels, whatever other channels they look up.
  lemma BaseAgrees(table: seq<Binding>, base: seq<nat>, indexed: set<nat>, resolved: set<nat>)
    requires ByChannel(table) && Ascending(base) && 0 !in base && SetOf(base) <= indexed && SetOf(base) <= resolved
    ensures Identifiers(Chained(Of(table, indexed), base)) == Identifiers(Of(Of(table, resolved), SetOf(Normalized(base))))
  {
    OfByChannel(table, indexed);
    ChainedIsOnePass(Of(table, indexed), base);
    NormalizedTwice(base);
    OfTwice(table, indexed, SetOf(base));
    OfTwice(table, resolved, SetOf(base));
  }

  // A group that cannot be decoded is one for which the resolver fails too, and the other way round.
  lemma IndexFails(key: string -> string, details: seq<Detail>, base: seq<nat>, table: seq<Binding>, model: string)
    ensures Grouped(key, details, key(model)).None? <==> key(key(model)) == key(model) && Resolve(key, details, base, table, model).None?
  {
    GroupedAgrees(key, details, model);
  }

  lemma {:induction false} Unlisted(key: string -> string, details: seq<Detail>, k: string)
    requires k !in Keys(key, details)
    ensures Collect(key, details, k) == Some(Channels([], false))
  {
    if details != [] {
      var n := |details| - 1;
      assert details[n] in details && forall d :: d in details[..n] ==> d in details;
      Unlisted(key, details[..n], k);
    }
  }

  // A detail that leaves its model unrestricted.
  predicate Open(d: Detail) { d.channels == Some([]) }

  // Nothing is collected under a key exactly if its details are all open.
  lemma {:induction false} CollectsNothing(key: string -> string, details: seq<Detail>, k: string)
    ensures Collect(key, details, k).Some? && !Collect(key, details, k).value.restricted
            <==> forall d :: d in details && key(d.model) == k ==> Open(d)
  {
    if details != [] {
      var n := |details| - 1;
      CollectsNothing(key, details[..n], k);
      assert details == details[..n] + [details[n]];
    }
  }

  // Its key is its own key, or it has none, or no detail of its key binds it to channels.
  ghost predicate Indexable(key: string -> string, details: seq<Detail>, model: string) {
    || key(key(model)) == key(model)
    || key(model) == ""
    || forall d :: d in details && key(d.model) == key(model) ==> Open(d)
  }

  // Index and resolver agree on a model, restriction and credentials in order, exactly then.
  lemma IndexExact(key: string -> string, details: seq<Detail>, base: seq<nat>, table: seq<Binding>, index: map<string,
      seq<string>>, model: string)
    requires Indexes(key, details, table, index)
    ensures Resolve(key, details, base, table, model) == Some(Indexed(key, index, model)) <==> Indexable(key, details, model)
  {
    if key(key(model)) == key(model) {
      IndexAgrees(key, details, base, table, index, model);
    } else {
      GroupedAgrees(key, details, model);
      CollectsNothing(key, details, key(model));
    }
  }
}
