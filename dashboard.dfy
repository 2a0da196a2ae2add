/**
 The dashboard's state machine. `Step` is the reference definition of one
 message's effect on the application state and of the follow-up order it
 emits; the class `Model` holds that state in mutable fields and handles each
 message in place. The lemmas state what sequences of messages do.
 */
module Dashboard {
  import opened Data
  import opened Occupancy

  /** The messages the application reacts to. */
  datatype Msg =
    | LoadServer
    | ServerLoaded(list: seq<Server>)
    | ServerChanged(code: string)
    | Refresh
    | StationLoaded(batch: seq<Station>)
    | StationChanged(filterText: string)
    | ToggleDark

  /** The follow-up an update asks the runtime for. */
  datatype Order =
    | NoOrder
    | Send(msg: Msg)              // queue another message
    | FetchServers                // fetch the server list, answered by ServerLoaded
    | FetchStations(code: string) // fetch a server's stations, answered by StationLoaded
    | Panic(reason: string)       // the update aborts

  /** The whole application state, as a value. */
  datatype State = State(
    servers: seq<Server>,
    selectedServer: string,
    playerOnStation: Logs,
    dark: bool,
    filter: string)

  /** The state the application starts in: no servers, none selected, no logs, dark theme. */
  const Initial := State([], "", map[], true, "")

  /** A delivered message, with the clock reading used to stamp new events. */
  datatype Input = Input(msg: Msg, now: int)

  /** One message: the new state and the follow-up order. */
  function Step(st: State, msg: Msg, now: int): (State, Order)
  {
    match msg
    case LoadServer => (st, FetchServers)
    case ServerLoaded(list) =>
      (st.(servers := list),
       if list == [] then Panic("no server") else Send(ServerChanged(list[0].serverCode)))
    case ServerChanged(code) => (st.(playerOnStation := map[], selectedServer := code), Send(Refresh))
    case Refresh => (st, if st.selectedServer != [] then FetchStations(st.selectedServer) else NoOrder)
    case StationLoaded(batch) =>
      (st.(playerOnStation := Ingest(st.playerOnStation, batch, now)), NoOrder)
    case StationChanged(f) => (st.(filter := f), NoOrder)
    case ToggleDark => (st.(dark := !st.dark), NoOrder)
  }

  /** The state after a sequence of delivered messages. */
  function Run(st: State, inputs: seq<Input>): State
    decreases |inputs|
  {
    if inputs == [] then st
    else
      var last := inputs[|inputs| - 1];
      Step(Run(st, inputs[..|inputs| - 1]), last.msg, last.now).0
  }

  /** Whether some StationLoaded message of `inputs` lists a station with prefix `k`. */
  predicate Observed(inputs: seq<Input>, k: string)
  {
    exists j :: 0 <= j < |inputs| && inputs[j].msg.StationLoaded? && k in Prefixes(inputs[j].msg.batch)
  }

  /** Dedup invariant of the running application: every message keeps every log deduplicated. */
  lemma {:induction false} RunKeepsDedup(st: State, inputs: seq<Input>)
    requires AllDeduped(st.playerOnStation)
    ensures AllDeduped(Run(st, inputs).playerOnStation)
    decreases |inputs|
  {
    if inputs != [] {
      var n := |inputs| - 1;
      var mid := Run(st, inputs[..n]);
      RunKeepsDedup(st, inputs[..n]);
      if inputs[n].msg.StationLoaded? {
        IngestKeepsDedup(mid.playerOnStation, inputs[n].msg.batch, inputs[n].now);
      }
    }
  }

  lemma ObservedOfSnoc(inputs: seq<Input>, k: string)
    requires inputs != []
    ensures Observed(inputs, k) <==>
              Observed(inputs[..|inputs| - 1], k) ||
              (inputs[|inputs| - 1].msg.StationLoaded? && k in Prefixes(inputs[|inputs| - 1].msg.batch))
  {
    var n := |inputs| - 1;
    if Observed(inputs, k) {
      var j :| 0 <= j < |inputs| && inputs[j].msg.StationLoaded? && k in Prefixes(inputs[j].msg.batch);
      if j < n { assert inputs[..n][j] == inputs[j]; }
    }
    if Observed(inputs[..n], k) {
      var j :| 0 <= j < n && inputs[..n][j].msg.StationLoaded? && k in Prefixes(inputs[..n][j].msg.batch);
      assert inputs[j] == inputs[..n][j];
    }
  }

  /**
   Server-switch isolation: after a ServerChanged message, the only stations
   with a log are those listed by a StationLoaded message delivered after it.
   */
  lemma {:induction false} SwitchIsolates(st: State, inputs: seq<Input>, i: int)
    requires 0 <= i < |inputs| && inputs[i].msg.ServerChanged?
    ensures forall k :: k in Run(st, inputs).playerOnStation ==> Observed(inputs[i + 1..], k)
    decreases |inputs|
  {
    var n := |inputs| - 1;
    var mid := Run(st, inputs[..n]);
    if i < n {
      assert inputs[..n][i] == inputs[i];
      SwitchIsolates(st, inputs[..n], i);
      assert inputs[..n][i + 1..] == inputs[i + 1..n];
      assert inputs[i + 1..][..|inputs[i + 1..]| - 1] == inputs[i + 1..n];
      forall k | k in Run(st, inputs).playerOnStation ensures Observed(inputs[i + 1..], k) {
        ObservedOfSnoc(inputs[i + 1..], k);
        if inputs[n].msg.StationLoaded? {
          IngestCovers(mid.playerOnStation, inputs[n].msg.batch, inputs[n].now);
        }
      }
    }
  }

  /**
   A non-empty server list stores the list and, through the messages it
   queues, selects its first server (active or not), clears the logs and
   fetches that server's stations when its code is not empty.
   */
  lemma ServerLoadedSelectsFirst(st: State, list: seq<Server>, now: int)
    requires list != []
    ensures var (s1, o1) := Step(st, ServerLoaded(list), now);
            s1.servers == list && o1 == Send(ServerChanged(list[0].serverCode)) &&
            var (s2, o2) := Step(s1, o1.msg, now);
            s2 == st.(servers := list, selectedServer := list[0].serverCode, playerOnStation := map[]) &&
            o2 == Send(Refresh) &&
            Step(s2, Refresh, now) ==
              (s2, if list[0].serverCode != [] then FetchStations(list[0].serverCode) else NoOrder)
  {
  }

  /** An empty server list is stored and then aborts the update. */
  lemma EmptyServerListPanics(st: State, now: int)
    ensures Step(st, ServerLoaded([]), now) == (st.(servers := []), Panic("no server"))
  {
  }

  /** Refresh never changes the state, and fetches stations exactly when a server is selected. */
  lemma RefreshOnlyFetches(st: State, now: int)
    ensures Step(st, Refresh, now).0 == st
    ensures Step(st, Refresh, now).1.FetchStations? <==> st.selectedServer != []
    ensures Step(st, Refresh, now).1.FetchStations? ==> Step(st, Refresh, now).1.code == st.selectedServer
  {
  }

  /** Toggling the theme twice restores it and touches nothing else. */
  lemma ToggleDarkTwice(st: State, now: int, later: int)
    ensures Step(Step(st, ToggleDark, now).0, ToggleDark, later).0 == st
  {
  }

  /**
   The application state, held in fields that each message updates in place.
   The object invariant is the dedup invariant of every station log.
   */
  class Model {
    var servers: seq<Server>
    var selectedServer: string
    var playerOnStation: Logs
    var dark: bool
    var filter: string

    ghost predicate Valid()
      reads this
    {
      AllDeduped(playerOnStation)
    }

    /** The fields as one value. */
    function Current(): State
      reads this
    {
      State(servers, selectedServer, playerOnStation, dark, filter)
    }

    /** The start-up state. */
    constructor ()
      ensures Valid() && Current() == Initial
    {
      servers := [];
      selectedServer := "";
      playerOnStation := map[];
      dark := true;
      filter := "";
    }

    /** Asks for the server list; changes nothing. */
    method LoadServer() returns (order: Order)
      ensures order == FetchServers
    {
      order := FetchServers;
    }

    /** Stores the server list and queues the selection of its first server, or panics on an empty list. */
    method ServerLoaded(list: seq<Server>) returns (order: Order)
      requires Valid()
      modifies this
      ensures Valid()
      ensures Current() == old(Current()).(servers := list)
      ensures list == [] ==> order == Panic("no server")
      ensures list != [] ==> order == Send(Msg.ServerChanged(list[0].serverCode))
    {
      servers := list;
      if |servers| == 0 {
        order := Panic("no server");
      } else {
        order := Send(Msg.ServerChanged(servers[0].serverCode));
      }
    }

    /** Selects a server, forgets every station log and queues a refresh. */
    method ServerChanged(code: string) returns (order: Order)
      requires Valid()
      modifies this
      ensures Valid()
      ensures playerOnStation == map[] && selectedServer == code
      ensures Current() == old(Current()).(playerOnStation := map[], selectedServer := code)
      ensures order == Send(Msg.Refresh)
    {
      playerOnStation := map[];
      selectedServer := code;
      order := Send(Msg.Refresh);
    }

    /** Fetches the selected server's stations, if a server is selected; changes nothing. */
    method Refresh() returns (order: Order)
      ensures order.FetchStations? <==> selectedServer != []
      ensures order.FetchStations? ==> order.code == selectedServer
      ensures !order.FetchStations? ==> order == NoOrder
    {
      if selectedServer != [] {
        var code := selectedServer;
        order := FetchStations(code);
      } else {
        order := NoOrder;
      }
    }

    /**
     Folds one batch of stations into the logs, station by station, stamping
     new events with `now`; nothing but the logs changes.
     */
    method StationLoaded(stations: seq<Station>, now: int)
      requires Valid()
      modifies this
      ensures Valid()
      ensures playerOnStation == Ingest(old(playerOnStation), stations, now)
      ensures Current() == old(Current()).(playerOnStation := playerOnStation)
    {
      for i := 0 to |stations|
        invariant playerOnStation == Ingest(old(playerOnStation), stations[..i], now)
        invariant Current() == old(Current()).(playerOnStation := playerOnStation)
      {
        var station := stations[i];
        ghost var before := playerOnStation;
        if station.prefix !in playerOnStation {
          playerOnStation := playerOnStation[station.prefix := []];
        }
        var stationLog := playerOnStation[station.prefix];
        if |stationLog| > 0 {
          var log := stationLog[|stationLog| - 1];
          if |station.dispatchedBy| > 0 {
            var player := station.dispatchedBy[0];
            if log.occupant != player.steamId {
              playerOnStation := playerOnStation[station.prefix := stationLog + [Event(now, player.steamId)]];
            }
          } else {
            if log.occupant != Bot {
              playerOnStation := playerOnStation[station.prefix := stationLog + [Event(now, Bot)]];
            }
          }
        } else {
          if |station.dispatchedBy| > 0 {
            var player := station.dispatchedBy[0];
            playerOnStation := playerOnStation[station.prefix := stationLog + [Event(now, player.steamId)]];
          } else {
            playerOnStation := playerOnStation[station.prefix := stationLog + [Event(now, Bot)]];
          }
        }
        assert playerOnStation == Observe(before, station, now);
        assert stations[..i + 1][..i] == stations[..i];
        assert Ingest(old(playerOnStation), stations[..i + 1], now) == Observe(before, station, now);
      }
      assert stations[..|stations|] == stations;
      IngestKeepsDedup(old(playerOnStation), stations, now);
    }

    /** Flips the theme. */
    method ToggleDark()
      requires Valid()
      modifies this
      ensures Valid()
      ensures Current() == old(Current()).(dark := !old(dark))
    {
      dark := !dark;
    }

    /** Sets the station filter text. */
    method StationChanged(filterText: string)
      requires Valid()
      modifies this
      ensures Valid()
      ensures Current() == old(Current()).(filter := filterText)
    {
      filter := filterText;
    }

    /** Handles one message in place, exactly as `Step` describes. */
    method Update(msg: Msg, now: int) returns (order: Order)
      requires Valid()
      modifies this
      ensures Valid()
      ensures (Current(), order) == Step(old(Current()), msg, now)
    {
      match msg {
        case LoadServer => order := LoadServer();
        case ServerLoaded(list) => order := ServerLoaded(list);
        case ServerChanged(code) => order := ServerChanged(code);
        case Refresh => order := Refresh();
        case StationLoaded(batch) =>
          StationLoaded(batch, now);
          order := NoOrder;
        case StationChanged(f) =>
          StationChanged(f);
          order := NoOrder;
        case ToggleDark =>
          ToggleDark();
          order := NoOrder;
      }
    }
  }

  /**
   A client of the class: a non-empty server list, followed by the messages it
   queues, leaves the first server selected with no station logs.
   */
  method LoadFirstServer(model: Model, list: seq<Server>) returns (order: Order)
    requires model.Valid() && list != []
    modifies model
    ensures model.Valid()
    ensures model.Current() ==
              old(model.Current()).(servers := list, selectedServer := list[0].serverCode, playerOnStation := map[])
    ensures order == (if list[0].serverCode != [] then FetchStations(list[0].serverCode) else NoOrder)
  {
    var next := model.ServerLoaded(list);
    next := model.Update(next.msg, 0);
    order := model.Update(next.msg, 0);
  }

  /** A client of the class: toggling twice gives the theme back. */
  method ToggleTwice(model: Model)
    requires model.Valid()
    modifies model
    ensures model.Valid() && model.Current() == old(model.Current())
  {
    model.ToggleDark();
    model.ToggleDark();
  }
}
