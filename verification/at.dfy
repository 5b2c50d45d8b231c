/** The AT command channel as the plugins see it: one reply per command. */
module AtChannel {
  import opened Wrappers

  /** What mm_base_modem_at_command_finish hands back: the reply text, or NULL with an error. */
  datatype AtReply = Response(text: string) | CommandFailed(message: string) {
    /** The reply text; None where the C code sees NULL. */
    function Text(): Option<string> {
      if Response? then Some(text) else None
    }
  }
}
