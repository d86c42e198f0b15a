/** The subtitle line under the video: the last text shown, and when it was
    set. Module state becomes a value; the clock reading is a parameter. */
module Subtitles {

  /** Seconds a subtitle stays on screen. */
  const DisplayDuration: real := 10.0

  datatype Subtitle = Subtitle(text: string, lastUpdate: real)

  /** The module's state at import: no text, updated at time 0. */
  const Initial := Subtitle("", 0.0)

  /** `update_subtitle`: replace the text and restart the timer. */
  function Update(s: Subtitle, text: string, now: real): (r: Subtitle)
    ensures r.text == text && r.lastUpdate == now
  {
    Subtitle(text, now)
  }

  /** `get_current_subtitle`: the text while it is younger than the display
      duration, the empty string after. */
  function Current(s: Subtitle, now: real): (r: string)
    ensures r == s.text || r == ""
    ensures now - s.lastUpdate < DisplayDuration ==> r == s.text
    ensures now - s.lastUpdate >= DisplayDuration ==> r == ""
  {
    if now - s.lastUpdate < DisplayDuration then s.text else ""
  }

  /** Before any update nothing is shown, at any time. */
  lemma InitialIsBlank(now: real)
    ensures Current(Initial, now) == ""
  {
  }

  /** A new subtitle is shown for exactly the display duration after its
      update, whatever was shown before. */
  lemma ShownForDuration(s: Subtitle, text: string, t: real, now: real)
    requires t <= now
    ensures Current(Update(s, text, t), now) == text <==> now < t + DisplayDuration || text == ""
  {
  }

  /** Of two updates, only the later one can be seen. */
  lemma LatestUpdateWins(s: Subtitle, a: string, t1: real, b: string, t2: real, now: real)
    ensures Update(Update(s, a, t1), b, t2) == Update(s, b, t2)
    ensures Current(Update(Update(s, a, t1), b, t2), now) in {b, ""}
  {
  }

  /** Expiry is monotone in time: once blank, blank at every later time. */
  lemma StaysBlank(s: Subtitle, now: real, later: real)
    requires now <= later && now - s.lastUpdate >= DisplayDuration
    ensures Current(s, later) == ""
  {
  }
}
