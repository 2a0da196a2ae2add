/**
 The records the dashboard receives from the railway panel API and the
 events it records. Only the fields the dashboard reads are kept.
 */
module Data {

  /** One game server of the `/servers-open` listing. */
  datatype Server = Server(serverCode: string, serverName: string, isActive: bool)

  /** A player dispatching a station, identified by a Steam id. */
  datatype Dispatcher = Dispatcher(steamId: string)

  /** One station of the `/stations-open` listing: its prefix and its dispatchers. */
  datatype Station = Station(prefix: string, dispatchedBy: seq<Dispatcher>)

  /** One entry of a station's log: when the occupant was first seen, and who it was. */
  datatype Event = Event(at: int, occupant: string)

  /** The occupant recorded for a station nobody dispatches. */
  const Bot: string := "BOT"

  /** Who controls a station: the first listed dispatcher, or the bot. */
  function Occupant(st: Station): string
  {
    if |st.dispatchedBy| > 0 then st.dispatchedBy[0].steamId else Bot
  }
}
