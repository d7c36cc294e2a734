/**
  The publisher of the two meta events (metaEventbus.go). Each send hands
  exactly one keyed message to the Kafka writer and returns the writer's
  error unchanged.
 */
module MetaEventbus {
  import opened Wrappers
  import opened Calendar
  import opened World

  /**
    The event names of the external `events` package, used as message keys.
    That package is not part of this model: only the fact that the two names
    differ is relied upon.
   */
  const SecondaryDbLoadedEventName := "SecondaryDbLoadedEvent"
  const CurrentYearEventName := "CurrentYearEvent"

  /** The month the academic year starts in, used when there is no previous datetime. */
  const AcademicStartMonth := 8

  /**
    The previous datetime the loaded event carries: a zero previous datetime
    becomes August 1, 00:00:00, of the given year; any other passes unchanged.
   */
  function PreviousOrYearStart(previous: DateTime, year: int): (r: DateTime)
    ensures !IsZero(r)
    ensures Valid(previous) ==> Valid(r)
    ensures !IsZero(previous) ==> r == previous
    ensures IsZero(previous) ==> r.year == year && r.month == AcademicStartMonth && r.day == 1
                                 && r.hour == 0 && r.minute == 0 && r.second == 0
  {
    if IsZero(previous) then DateTime(year, AcademicStartMonth, 1, 0, 0, 0) else previous
  }

  /** The message `sendSecondaryDbLoadedEvent` writes. */
  function LoadedMessage(current: DateTime, previous: DateTime, year: int): Message {
    Message(SecondaryDbLoadedEventName, SecondaryDbLoaded(current, PreviousOrYearStart(previous, year), year))
  }

  /** The message `sendCurrentYearEvent` writes: the year and nothing else. */
  function YearMessage(year: int): Message {
    Message(CurrentYearEventName, CurrentYear(year))
  }

  /** The loaded event carries (current, previous, year), with only a zero previous replaced. */
  lemma LoadedMessagePayload(current: DateTime, previous: DateTime, year: int)
    ensures LoadedMessage(current, previous, year).key == SecondaryDbLoadedEventName
    ensures LoadedMessage(current, previous, year).value.current == current
    ensures LoadedMessage(current, previous, year).value.year == year
    ensures !IsZero(previous) ==> LoadedMessage(current, previous, year).value.previous == previous
    ensures IsZero(previous) ==> LoadedMessage(current, previous, year).value.previous == DateTime(year, 8, 1, 0, 0, 0)
  {
  }

  /** The two kinds of message are told apart by their keys. */
  lemma MessagesDistinct(current: DateTime, previous: DateTime, year: int, other: int)
    ensures LoadedMessage(current, previous, year) != YearMessage(other)
    ensures LoadedMessage(current, previous, year).key != YearMessage(other).key
  {
  }

  class MetaEventbus {
    const writer: Writer

    constructor (writer: Writer)
      ensures this.writer == writer
    {
      this.writer := writer;
    }

    /** `writeMessage`: one `WriteMessages` call with one message keyed by the event name. */
    method WriteMessage(eventName: string, event: Event) returns (err: Option<string>)
      modifies writer.journal
      ensures writer.journal.effects == old(writer.journal.effects) + [Sent(Message(eventName, event))]
      ensures err == if eventName in writer.failures then Some(writer.failures[eventName]) else None
    {
      err := writer.WriteMessages(Message(eventName, event));
    }

    /** `sendSecondaryDbLoadedEvent`. */
    method SendSecondaryDbLoadedEvent(current: DateTime, previous: DateTime, year: int) returns (err: Option<string>)
      modifies writer.journal
      ensures writer.journal.effects == old(writer.journal.effects) + [Sent(LoadedMessage(current, previous, year))]
      ensures err == if SecondaryDbLoadedEventName in writer.failures then Some(writer.failures[SecondaryDbLoadedEventName]) else None
    {
      var prev := previous;
      if IsZero(prev) {
        prev := DateTime(year, AcademicStartMonth, 1, 0, 0, 0);
      }
      err := WriteMessage(SecondaryDbLoadedEventName, SecondaryDbLoaded(current, prev, year));
    }

    /** `sendCurrentYearEvent`. */
    method SendCurrentYearEvent(year: int) returns (err: Option<string>)
      modifies writer.journal
      ensures writer.journal.effects == old(writer.journal.effects) + [Sent(YearMessage(year))]
      ensures err == if CurrentYearEventName in writer.failures then Some(writer.failures[CurrentYearEventName]) else None
    {
      err := WriteMessage(CurrentYearEventName, CurrentYear(year));
    }
  }
}
