/**
 * The "ending soon" card: one row per event, coloured by how far its end
 * lies from the current instant. Instants are integer milliseconds.
 */
module UpcomingEvents {
  import opened Records

  /** Three days in milliseconds: `3 * 24 * 60 * 60 * 1000`. */
  const ThreeDaysMs: int := 3 * 24 * 60 * 60 * 1000

  datatype StatusColor = Red | Orange | Green

  /** The Tailwind class of each colour. */
  function ColorClass(c: StatusColor): string
  {
    match c
    case Red => "bg-red-500"
    case Orange => "bg-orange-500"
    case Green => "bg-green-500"
  }

  /**
   * Expired (`endDate < now`) is red; otherwise about to expire
   * (`endDate - now <= 3 days`) is orange; otherwise green.
   */
  function Status(end: int, now: int): (c: StatusColor)
    ensures c == Red <==> end < now
    ensures c == Orange <==> now <= end <= now + ThreeDaysMs
    ensures c == Green <==> end > now + ThreeDaysMs
  {
    if end < now then Red
    else if end - now <= ThreeDaysMs then Orange
    else Green
  }

  /** Later ends never get a more urgent colour: the classification is monotone in the end instant. */
  lemma StatusMonotone(e1: int, e2: int, now: int)
    requires e1 <= e2
    ensures Status(e1, now) == Green ==> Status(e2, now) == Green
    ensures Status(e2, now) == Red ==> Status(e1, now) == Red
  {
  }

  datatype Row = Row(title: string, color: StatusColor)

  /** `events.map(...)`: one row per event, in the events' order. */
  function Rows(events: seq<EventRecord>, now: int): (r: seq<Row>)
    ensures |r| == |events|
    ensures forall i :: 0 <= i < |r| ==> r[i] == Row(events[i].titles, Status(events[i].endDates, now))
  {
    if events == [] then [] else [Row(events[0].titles, Status(events[0].endDates, now))] + Rows(events[1..], now)
  }

  /** A list of events none of which has ended yields no red row. */
  lemma NoRedRows(events: seq<EventRecord>, now: int)
    requires forall i :: 0 <= i < |events| ==> events[i].endDates >= now
    ensures forall i :: 0 <= i < |Rows(events, now)| ==> Rows(events, now)[i].color != Red
  {
  }
}
