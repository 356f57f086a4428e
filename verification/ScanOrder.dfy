/** From the order of a device's channels to the layout of its scans. */
module ScanOrder {
  import opened ScanLayout
  import ChannelOrder

  /** The channels as `reorder_channels` leaves them are in the order the layout needs. */
  lemma ReorderedIsOrdered(channels: seq<ChannelOrder.Channel>, s: Scan)
    requires ChannelOrder.Sorted(channels) && |channels| == |s.chs| <= |s.mask|
    requires forall i :: 0 <= i < |s.chs| ==> s.chs[i].index == channels[i].index && 0 < s.chs[i].length
    ensures Ordered(s)
  {
    forall i, j | 0 <= i < j < |s.chs| && 0 <= s.chs[j].index ensures 0 <= s.chs[i].index <= s.chs[j].index {
      ChannelOrder.SortedByIndex(channels, i, j);
    }
  }
}
