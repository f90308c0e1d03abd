/**
 * The shared route table and `buildUrl`, which fills the `:name`
 * placeholders of a path template from a record of parameters. The record
 * is modelled by its `Object.entries` list, in the order the entries are
 * visited.
 */
module Routes {
  import opened Wrappers
  import opened JsText
  import opened Sums

  datatype Method = GET | POST | DELETE

  datatype Route = Route(verb: Method, path: string)

  const GroupsList := Route(GET, "/api/groups")
  const GroupsCreate := Route(POST, "/api/groups")
  const GroupsGet := Route(GET, "/api/groups/:id")
  const GroupsJoin := Route(POST, "/api/groups/:id/join")
  const ExpensesList := Route(GET, "/api/groups/:groupId/expenses")
  const ExpensesCreate := Route(POST, "/api/groups/:groupId/expenses")
  const ExpensesDelete := Route(DELETE, "/api/expenses/:id")
  const SettlementsList := Route(GET, "/api/groups/:groupId/settlements")
  const SettlementsCreate := Route(POST, "/api/groups/:groupId/settlements")
  const SubscriptionGet := Route(GET, "/api/subscription")
  const SubscriptionUpgrade := Route(POST, "/api/subscription/upgrade")

  /** A parameter value: `string | number`, numbers restricted to integers */
  datatype ParamValue = Text(text: string) | Number(n: int)

  /** `String(value)` */
  function ValueText(v: ParamValue): (r: string)
    ensures v.Number? ==> '$' !in r && ':' !in r
  {
    match v
    case Text(t) => t
    case Number(n) => IntText(n)
  }

  type Entry = (string, ParamValue)

  /** The text `:key` that stands for parameter `key` in a template */
  function Placeholder(key: string): (r: string)
    ensures |r| == |key| + 1 && r[0] == ':' && r[1..] == key
  {
    ":" + key
  }

  /** One pass of the `forEach`: replace the first `:key`, if the url has one */
  function Substitute(url: string, entry: Entry): (r: string)
    ensures ':' !in url ==> r == url
  {
    var (key, value) := entry;
    IncludesIffOccurs(url, Placeholder(key));
    if Includes(url, Placeholder(key)) then Replace(url, Placeholder(key), ValueText(value)) else url
  }

  /** The url after every entry has been applied in turn */
  function Substituted(path: string, entries: seq<Entry>): string {
    FoldLeft(Substitute, path, entries)
  }

  /** `buildUrl(path, params)`; `None` is an absent `params` */
  function BuildUrlOf(path: string, params: Option<seq<Entry>>): string {
    match params
    case None => path
    case Some(entries) => Substituted(path, entries)
  }

  /** `buildUrl`: `url` is reassigned once per entry that names a placeholder in it */
  method BuildUrl(path: string, params: Option<seq<Entry>>) returns (url: string)
    ensures url == BuildUrlOf(path, params)
  {
    url := path;
    if params.Some? {
      var entries := params.value;
      for i := 0 to |entries|
        invariant url == Substituted(path, entries[..i])
      {
        var (key, value) := entries[i];
        if Includes(url, Placeholder(key)) {
          url := Replace(url, Placeholder(key), ValueText(value));
        }
        FoldLeftSnoc(Substitute, path, entries[..i], entries[i]);
        assert entries[..i + 1] == entries[..i] + [entries[i]];
      }
      assert entries[..|entries|] == entries;
    }
  }

  // ---------------------------------------------------------------------
  // Properties

  /** Without parameters, or with an empty record, the template comes back unchanged. */
  lemma NoParamsUnchanged(path: string)
    ensures BuildUrlOf(path, None) == path
    ensures BuildUrlOf(path, Some([])) == path
  {
  }

  /** An entry whose placeholder does not occur leaves the url as it is. */
  lemma AbsentKeyUnchanged(url: string, key: string, value: ParamValue)
    requires forall k :: !OccursAt(url, Placeholder(key), k)
    ensures Substitute(url, (key, value)) == url
  {
    IncludesIffOccurs(url, Placeholder(key));
  }

  /**
   * An entry replaces only the first `:key`: the text before it and
   * everything after it, later `:key`s included, are kept.
   */
  lemma FirstPlaceholderOnly(url: string, key: string, value: ParamValue, i: nat)
    requires '$' !in ValueText(value)
    requires OccursAt(url, Placeholder(key), i)
    requires forall k: nat :: k < i ==> !OccursAt(url, Placeholder(key), k)
    ensures Substitute(url, (key, value)) == url[..i] + ValueText(value) + url[i + |key| + 1..]
  {
    ReplaceFirstOnly(url, Placeholder(key), ValueText(value), i);
  }

  /** Entries apply one after another, each to the url the previous ones left. */
  lemma EntriesInOrder(path: string, entries: seq<Entry>, more: seq<Entry>)
    ensures Substituted(path, entries + more) == Substituted(Substituted(path, entries), more)
    decreases |more|
  {
    if more == [] {
      assert entries + more == entries;
    } else {
      var prev, last := more[..|more| - 1], more[|more| - 1];
      EntriesInOrder(path, entries, prev);
      assert entries + more == (entries + prev) + [last];
      FoldLeftSnoc(Substitute, path, entries + prev, last);
      FoldLeftSnoc(Substitute, Substituted(path, entries), prev, last);
    }
  }

  /** A one-entry record is exactly one substitution. */
  lemma SingleEntry(path: string, entry: Entry)
    ensures Substituted(path, [entry]) == Substitute(path, entry)
  {
    FoldLeftSnoc(Substitute, path, [], entry);
    assert [] + [entry] == [entry];
  }

  /** A url without any `:` has no placeholder, so no entry changes it. */
  lemma {:induction false} NoColonUnchanged(path: string, entries: seq<Entry>)
    requires ':' !in path
    ensures Substituted(path, entries) == path
    decreases |entries|
  {
    if entries != [] {
      NoColonUnchanged(path, entries[..|entries| - 1]);
    }
  }

  /**
   * A template with one placeholder after a colon-free prefix: an entry
   * whose `:key` starts there puts the value in its place.
   */
  lemma FillAfterPrefix(prefix: string, key: string, rest: string, value: ParamValue)
    requires ':' !in prefix && '$' !in ValueText(value)
    ensures Substitute(prefix + Placeholder(key) + rest, (key, value)) == prefix + ValueText(value) + rest
  {
    var url := prefix + Placeholder(key) + rest;
    var i := |prefix|;
    assert url[i..i + |key| + 1] == Placeholder(key);
    forall k: nat | k < i
      ensures !OccursAt(url, Placeholder(key), k)
    {
      assert url[k] == prefix[k];
    }
    FirstPlaceholderOnly(url, key, value, i);
    assert url[..i] == prefix;
    assert url[i + |key| + 1..] == rest;
  }

  /**
   * `buildUrl` on a template whose first `:` opens the placeholder of the
   * only entry: the value takes the placeholder's place.
   */
  lemma FillTemplate(path: string, prefix: string, key: string, rest: string, value: ParamValue)
    requires path == prefix + Placeholder(key) + rest
    requires ':' !in prefix && '$' !in ValueText(value)
    ensures BuildUrlOf(path, Some([(key, value)])) == prefix + ValueText(value) + rest
  {
    SingleEntry(path, (key, value));
    FillAfterPrefix(prefix, key, rest, value);
  }

  /** The expenses template as the `groupId` placeholder between its fixed parts */
  lemma ExpensesListShape()
    ensures ExpensesList.path == "/api/groups/" + Placeholder("groupId") + "/expenses"
  {
  }

  /** The same template split at `:group`, the front of that placeholder */
  lemma ExpensesListShapeAtGroup()
    ensures ExpensesList.path == "/api/groups/" + Placeholder("group") + "Id/expenses"
  {
  }

  /** The expenses list of group `n` is fetched from `/api/groups/<n>/expenses`. */
  lemma ExpensesListUrl(n: int)
    ensures BuildUrlOf(ExpensesList.path, Some([("groupId", Number(n))])) == "/api/groups/" + IntText(n) + "/expenses"
  {
    ExpensesListShape();
    FillTemplate(ExpensesList.path, "/api/groups/", "groupId", "/expenses", Number(n));
  }

  /**
   * Placeholders match as substrings: a key `group` rewrites the front of
   * `:groupId`, leaving `Id` behind (group 5 gives `/api/groups/5Id/expenses`).
   */
  lemma PrefixKeyQuirk(n: int)
    ensures BuildUrlOf(ExpensesList.path, Some([("group", Number(n))])) == "/api/groups/" + IntText(n) + "Id/expenses"
  {
    ExpensesListShapeAtGroup();
    FillTemplate(ExpensesList.path, "/api/groups/", "group", "Id/expenses", Number(n));
  }

  /**
   * A text value goes through the `$` patterns of `replace`: the value
   * `$&` puts the matched placeholder back, so the url does not change.
   */
  lemma DollarValueQuirk(url: string, key: string)
    requires Includes(url, Placeholder(key))
    ensures Substitute(url, (key, Text("$&"))) == url
  {
    var i := IndexOf(url, Placeholder(key), 0).value;
    assert Expand("$&", Placeholder(key), url[..i], url[i + |key| + 1..]) == Placeholder(key);
    assert url[..i] + Placeholder(key) + url[i + |key| + 1..] == url;
  }
}
