/** The player-facing vocabulary shared by the bridge and its listeners. */
module Player {

  /** `PlayerState`: the states a listener can be told about. */
  datatype PlayerState = Unknown | Unstarted | Ended | Playing | Paused | Buffering | VideoCued
}
