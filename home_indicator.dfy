/**
 * The home indicator: which configured people are at home. Each filter maps a
 * list of router device names to a nickname; a device-list update is reduced to
 * one online flag per nickname, and the module's height follows the number of
 * nicknames shown.
 */
module HomeIndicator {
  import opened Base
  import opened Text
  import opened FritzBox

  /** A list of device names for one person and the nickname shown for them. */
  datatype Filter = Filter(deviceNames: seq<string>, nickname: string)

  /** The nickname a filter keeps when its entry lists no device names. */
  const UnknownNickname: string := "Unknown"

  /** A "filter" entry of the configuration; each key may be absent. */
  datatype FilterEntry = FilterEntry(deviceNames: Option<seq<string>>, nickname: Option<string>)

  /** The module's configuration, as far as this module reads it: the optional "filter" array. */
  datatype Config = Config(filter: Option<seq<FilterEntry>>)

  /** The entry that is written into a configuration without filters. */
  const DefaultEntry: FilterEntry := FilterEntry(Some(["MobilePhone123", "MyComputer"]), Some("Peter"))

  // ---------------------------------------------------------------------------
  // Filter(JsonObject)
  // ---------------------------------------------------------------------------

  /**
   * The filter an entry describes. With a non-empty deviceNames array the names
   * are kept in order and the nickname is the given one, or else the first
   * name; otherwise the filter is empty and keeps the nickname "Unknown", even
   * when the entry names one.
   */
  function FilterOf(entry: FilterEntry): (r: Filter)
    ensures |r.deviceNames| > 0 <==> entry.deviceNames.Some? && |entry.deviceNames.value| > 0
    ensures |r.deviceNames| > 0 ==>
              r.deviceNames == entry.deviceNames.value &&
              r.nickname == if entry.nickname.Some? then entry.nickname.value else r.deviceNames[0]
    ensures |r.deviceNames| == 0 ==> r.nickname == UnknownNickname
  {
    if entry.deviceNames.Some? && |entry.deviceNames.value| != 0 then
      var names := entry.deviceNames.value;
      Filter(names, if entry.nickname.Some? then entry.nickname.value else names[0])
    else
      Filter([], UnknownNickname)
  }

  /** The default entry describes Peter with two devices. */
  lemma DefaultFilter()
    ensures FilterOf(DefaultEntry) == Filter(["MobilePhone123", "MyComputer"], "Peter")
  {
  }

  /** new Filter(entry): the device names are copied one at a time. */
  method ParseFilter(entry: FilterEntry) returns (f: Filter)
    ensures f == FilterOf(entry)
  {
    f := Filter([], UnknownNickname);
    if entry.deviceNames.Some? {
      var deviceNames := entry.deviceNames.value;
      if |deviceNames| != 0 {
        var names: seq<string> := [];
        var i := 0;
        while i < |deviceNames|
          invariant 0 <= i <= |deviceNames|
          invariant names == deviceNames[..i]
        {
          names := names + [deviceNames[i]];
          i := i + 1;
        }
        assert names == deviceNames;
        var nickname := if entry.nickname.Some? then entry.nickname.value else names[0];
        f := Filter(names, nickname);
      }
    }
  }

  // ---------------------------------------------------------------------------
  // getByDeviceName
  // ---------------------------------------------------------------------------

  /** The filter lists the device name, ignoring case; a null name matches nothing. */
  predicate Matches(f: Filter, name: Option<string>)
  {
    name.Some? && exists k :: 0 <= k < |f.deviceNames| && EqualsIgnoreCase(f.deviceNames[k], name.value)
  }

  /** The position of the first filter from index from on that matches the name, or -1. */
  function MatchFrom(filters: seq<Filter>, name: Option<string>, from: nat): (r: int)
    requires from <= |filters|
    requires forall j :: 0 <= j < from ==> !Matches(filters[j], name)
    ensures -1 <= r < |filters|
    ensures r >= 0 ==> Matches(filters[r], name) && forall j :: 0 <= j < r ==> !Matches(filters[j], name)
    ensures r == -1 <==> forall j :: 0 <= j < |filters| ==> !Matches(filters[j], name)
    decreases |filters| - from
  {
    if from == |filters| then -1
    else if Matches(filters[from], name) then from
    else MatchFrom(filters, name, from + 1)
  }

  /** getByDeviceName: the first filter in list order that lists the name, or null. */
  function GetByDeviceName(filters: seq<Filter>, name: Option<string>): (r: Option<Filter>)
    ensures r.Some? <==> exists j :: 0 <= j < |filters| && Matches(filters[j], name)
    ensures r.Some? ==> exists j :: 0 <= j < |filters| && filters[j] == r.value && Matches(filters[j], name) &&
                                    forall i :: 0 <= i < j ==> !Matches(filters[i], name)
    ensures name.None? ==> r.None?
  {
    var i := MatchFrom(filters, name, 0);
    if i >= 0 then Some(filters[i]) else None
  }

  // ---------------------------------------------------------------------------
  // accept: one flag per nickname
  // ---------------------------------------------------------------------------

  /** The nickname a client is shown under, or None when no filter lists it. */
  function NicknameOf(filters: seq<Filter>, c: Client): Option<string>
  {
    match GetByDeviceName(filters, c.name)
    case None => None
    case Some(f) => Some(f.nickname)
  }

  /** The lookup accept uses with a given filter list. */
  function Nicknames(filters: seq<Filter>): Client -> Option<string>
  {
    c => NicknameOf(filters, c)
  }

  /**
   * The map accept builds, client by client, with nickname the filter lookup:
   * an unmatched client is skipped; a matched one records its isActive under
   * the nickname unless true is already recorded there.
   */
  function Visible(nickname: Client -> Option<string>, clients: seq<Client>): map<string, bool>
    decreases |clients|
  {
    if |clients| == 0 then map[]
    else
      var m := Visible(nickname, clients[..|clients| - 1]);
      var c := clients[|clients| - 1];
      match nickname(c)
      case None => m
      case Some(k) => if k in m && m[k] then m else m[k := IsActive(c)]
  }

  /** Some client is shown under nickname k. */
  predicate Shown(nickname: Client -> Option<string>, clients: seq<Client>, k: string)
  {
    exists i :: 0 <= i < |clients| && nickname(clients[i]) == Some(k)
  }

  /** Some active client is shown under nickname k. */
  predicate ShownActive(nickname: Client -> Option<string>, clients: seq<Client>, k: string)
  {
    exists i :: 0 <= i < |clients| && nickname(clients[i]) == Some(k) && IsActive(clients[i])
  }

  /**
   * The keys are exactly the nicknames some client is shown under, and each
   * nickname maps to the OR of isActive over the clients shown under it (so a
   * true is never overwritten).
   */
  lemma {:induction false} VisibleIsOr(nickname: Client -> Option<string>, clients: seq<Client>, k: string)
    ensures k in Visible(nickname, clients) <==> Shown(nickname, clients, k)
    ensures k in Visible(nickname, clients) ==> (Visible(nickname, clients)[k] <==> ShownActive(nickname, clients, k))
    decreases |clients|
  {
    if |clients| > 0 {
      var n := |clients| - 1;
      var previous := clients[..n];
      VisibleIsOr(nickname, previous, k);
      if Shown(nickname, previous, k) {
        var i :| 0 <= i < n && nickname(previous[i]) == Some(k);
        assert previous[i] == clients[i];
      }
      if ShownActive(nickname, previous, k) {
        var i :| 0 <= i < n && nickname(previous[i]) == Some(k) && IsActive(previous[i]);
        assert previous[i] == clients[i];
      }
      if Shown(nickname, clients, k) {
        var i :| 0 <= i < |clients| && nickname(clients[i]) == Some(k);
        if i < n {
          assert previous[i] == clients[i];
        }
      }
      if ShownActive(nickname, clients, k) {
        var i :| 0 <= i < |clients| && nickname(clients[i]) == Some(k) && IsActive(clients[i]);
        if i < n {
          assert previous[i] == clients[i];
        }
      }
    }
  }

  /** A client that no filter lists changes nothing. */
  lemma UnmatchedIsSkipped(nickname: Client -> Option<string>, clients: seq<Client>, c: Client)
    requires nickname(c).None?
    ensures Visible(nickname, clients + [c]) == Visible(nickname, clients)
  {
    assert (clients + [c])[..|clients|] == clients;
  }

  /** The module height for n nicknames: one 12-pixel line per nickname plus one, at least 24. */
  function HeightFor(n: nat): (h: int)
    ensures h >= 24
    ensures n == 0 ==> h == 24
    ensures n >= 1 ==> h == 12 * (n + 1)
  {
    Max(24, 12 * (n + 1))
  }

  /** The module's fixed width. */
  const Width: int := 230

  /** HomeIndicatorModule: the filters, the last reduced device list and the module size. */
  class HomeIndicatorModule {
    var filters: seq<Filter>
    var visibleClients: map<string, bool>
    var lastFilterMatchedResult: int
    var networkValid: bool
    var width: int
    var height: int

    constructor ()
      ensures filters == [] && visibleClients == map[]
      ensures lastFilterMatchedResult == -1 && !networkValid
      ensures width == Width && height == 24
    {
      filters := [];
      visibleClients := map[];
      lastFilterMatchedResult := -1;
      networkValid := false;
      width := Width;
      height := 24;
    }

    /**
     * onLoadConfig: with a "filter" array the list is cleared and rebuilt in
     * array order; without one the default entry is added to the configuration
     * (which is then saved) and the list is left as it was.
     */
    method LoadConfig(config: Config) returns (updated: Config)
      modifies this`filters
      ensures config.filter.Some? ==>
                updated == config &&
                |filters| == |config.filter.value| &&
                forall i :: 0 <= i < |filters| ==> filters[i] == FilterOf(config.filter.value[i])
      ensures config.filter.None? ==> updated == Config(Some([DefaultEntry])) && filters == old(filters)
    {
      if config.filter.Some? {
        var entries := config.filter.value;
        filters := [];
        var i := 0;
        while i < |entries|
          invariant 0 <= i <= |entries|
          invariant |filters| == i
          invariant forall j :: 0 <= j < i ==> filters[j] == FilterOf(entries[j])
        {
          var f := ParseFilter(entries[i]);
          filters := filters + [f];
          i := i + 1;
        }
        updated := config;
      } else {
        updated := Config(Some([DefaultEntry]));
      }
    }

    /**
     * accept(network): visibleClients is replaced by the reduction of the device
     * list; a change in its size is stored and resizes the module.
     */
    method Accept(network: Network)
      modifies this`visibleClients, this`lastFilterMatchedResult, this`networkValid, this`width, this`height
      ensures visibleClients == Visible(Nicknames(filters), network.network)
      ensures networkValid
      ensures |visibleClients| != old(lastFilterMatchedResult) ==>
                lastFilterMatchedResult == |visibleClients| && width == Width && height == HeightFor(|visibleClients|)
      ensures |visibleClients| == old(lastFilterMatchedResult) ==>
                lastFilterMatchedResult == old(lastFilterMatchedResult) && width == old(width) && height == old(height)
    {
      var clients := network.network;
      var visible: map<string, bool> := map[];
      var i := 0;
      while i < |clients|
        invariant 0 <= i <= |clients|
        invariant visible == Visible(Nicknames(filters), clients[..i])
      {
        assert clients[..i + 1][..i] == clients[..i];
        var client := clients[i];
        var filter := GetByDeviceName(filters, client.name);
        assert Nicknames(filters)(client) == NicknameOf(filters, client);
        if filter.Some? {
          var nickname := filter.value.nickname;
          if !(nickname in visible) || !visible[nickname] {
            visible := visible[nickname := IsActive(client)];
          }
        }
        i := i + 1;
      }
      assert clients[..i] == clients;
      visibleClients := visible;
      var size := |visibleClients|;
      if lastFilterMatchedResult != size {
        lastFilterMatchedResult := size;
        width, height := Width, HeightFor(size);
      }
      networkValid := true;
    }
  }
}
