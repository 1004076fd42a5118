/**
  The interest mask of a channel: src/net/Channel.cc. Registration with the poller is not modelled;
  the mask stands for the events the poller reports.
 */
module Channel {

  const READ_EVENT: bv32 := 1
  const WRITE_EVENT: bv32 := 4

  function Switch(events: bv32, mask: bv32, on: bool): bv32
  {
    if on then events | mask else events & !mask
  }

  /** Switching one interest sets it as asked and leaves the other alone. */
  lemma SwitchIsLocal(events: bv32, on: bool)
    ensures Switch(events, WRITE_EVENT, on) & WRITE_EVENT != 0 <==> on
    ensures Switch(events, READ_EVENT, on) & READ_EVENT != 0 <==> on
    ensures Switch(events, WRITE_EVENT, on) & READ_EVENT == events & READ_EVENT
    ensures Switch(events, READ_EVENT, on) & WRITE_EVENT == events & WRITE_EVENT
  {
  }

  class Channel {
    var events: bv32

    predicate IsReading()
      reads this
    {
      events & READ_EVENT != 0
    }

    predicate IsWriting()
      reads this
    {
      events & WRITE_EVENT != 0
    }

    constructor ()
      ensures !IsReading() && !IsWriting()
    {
      events := 0;
    }

    method EnableReading(enable: bool)
      modifies this
      ensures IsReading() == enable && IsWriting() == old(IsWriting())
    {
      SwitchIsLocal(events, enable);
      if enable {
        events := events | READ_EVENT;
      } else {
        events := events & !READ_EVENT;
      }
    }

    method EnableWriting(enable: bool)
      modifies this
      ensures IsWriting() == enable && IsReading() == old(IsReading())
    {
      SwitchIsLocal(events, enable);
      if enable {
        events := events | WRITE_EVENT;
      } else {
        events := events & !WRITE_EVENT;
      }
    }
  }
}
