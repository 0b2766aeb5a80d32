/** The whole way of a request in the browser relay: frames, queue, polls, and the page that performs it. */
module BrowserRelay {
  import opened Prelude
  import opened RelayDevice
  import opened RelayHost
  import FrameQueue

  /** What a send that went out whole has written. */
  function SendOf(id: Byte, r: Request, tiles: seq<Tile>): seq<Bytes> {
    [BeginFrame(id, r)] + DataFrames(id, tiles) + [EndFrame(id)]
  }

  /**
   From the device's queue to the page, over any interleaving of enqueues and polls: when the frames
   of a send were all accepted, after whatever was accepted `earlier`, and the queue has been polled
   empty, the last thing the page does is perform exactly that request.
   */
  lemma {:induction false} AcceptedSendIsPerformed(events: seq<FrameQueue.Event>, earlier: seq<Bytes>, id: Byte, r: Request, tiles: seq<Tile>)
    requires 0 < |Stream(r)| <= UINT16_MAX && TilesTo(tiles, Stream(r), |Stream(r)|)
    requires var l := FrameQueue.Run(FrameQueue.Link([], [], []), events);
      l.queue == [] && l.taken == earlier + SendOf(id, r, tiles)
    ensures var l := FrameQueue.Run(FrameQueue.Link([], [], []), events);
      Run(None, l.received) == (None, Run(None, earlier).1 + [Perform(id, r)])
  {
    FrameQueue.AllReceivedWhenDrained(events);
    RunAppend(None, earlier, SendOf(id, r, tiles));
    WholeSendIsPerformed(Run(None, earlier).0, id, r, tiles);
  }
}
