/** The outbound half of the bridge: the commands the view issues to the
    embedded player page. The page's own JavaScript is not part of this
    model, so each command is recorded abstractly, in issue order. */
module Transport {
  import PlayerOptions
  import Wrappers

  datatype Command =
    /** Load the player page built for the given options. */
    | LoadPage(options: PlayerOptions.Options)
    | LoadVideo(videoId: string, startSeconds: real)
    | CueVideo(videoId: string, startSeconds: real)
    | Play
    | Pause
    | Stop
    | SeekTo(seconds: real)
    /** The volume is forwarded as given; the page rescales it. */
    | SetVolume(volume: real)
    /** Tear down the web view. */
    | Destroy

  /** The player parameters the page of a `LoadPage` command embeds in its
      player set-up: the options' parameter string, from which the options
      can be read back. */
  function PlayerVars(c: Command): (s: string)
    requires c.LoadPage?
    ensures PlayerOptions.Decode(s) == Wrappers.Some(c.options)
  {
    PlayerOptions.DecodeToUrlParams(c.options);
    PlayerOptions.ToUrlParams(c.options)
  }
}
