/**
 The scroll position of a task list window, counted in wrapped screen lines.  A
 negative position means the window follows the bottom of its content; scrolling
 up leaves that mode, and scrolling down past the bottom returns to it on the next
 redraw.  The line heights of the content are an input of the redraw.
 */
module Scroll {

  const Following := -1
  const Step := 3

  datatype Scroll = Scroll(pos: int, last: int)
  {
    /** Either following the bottom or at a definite line. */
    predicate Valid()
    {
      pos >= Following
    }
  }

  /** A new window follows the bottom. */
  function NewScroll(): (s: Scroll)
    ensures s.Valid() && s.pos < 0 && s.last == 0
  {
    Scroll(Following, 0)
  }

  /** `_scroll_down`: three lines down, unless following the bottom already. */
  function ScrollDown(s: Scroll): (r: Scroll)
    ensures r.last == s.last
    ensures s.pos < 0 ==> r == s
    ensures s.pos >= 0 ==> r.pos == s.pos + Step
    ensures s.Valid() ==> r.Valid()
  {
    if s.pos >= 0 then s.(pos := s.pos + Step) else s
  }

  /**
   `_scroll_up`: three lines up, never above the top; when following, it starts
   from the bottom position of the last redraw.
   */
  function ScrollUp(s: Scroll): (r: Scroll)
    ensures r.last == s.last && r.pos >= 0
    ensures var start := if s.pos < 0 then s.last else s.pos;
      start < Step ==> r.pos == 0
    ensures var start := if s.pos < 0 then s.last else s.pos;
      start >= Step ==> r.pos == start - Step
  {
    var start := if s.pos < 0 then s.last else s.pos;
    s.(pos := if start - Step > 0 then start - Step else 0)
  }

  /** The total number of screen lines of the content. */
  function Sum(heights: seq<nat>): nat
  {
    if |heights| == 0 then 0 else heights[0] + Sum(heights[1..])
  }

  /**
   The position logic of `_copy_body`: the bottom position is the content height
   minus the window height; a position past it returns to following; the line shown
   first is the bottom position when following, else the position.
   */
  function CopyBody(s: Scroll, heights: seq<nat>, height: int): (r: (Scroll, int))
    ensures r.0.last == Sum(heights) - height
    ensures s.pos > r.0.last ==> r.0.pos == Following
    ensures s.pos <= r.0.last ==> r.0.pos == s.pos
    ensures r.0.pos < 0 ==> r.1 == r.0.last
    ensures r.1 <= r.0.last
    ensures r.0.last >= 0 ==> 0 <= r.1
    ensures s.Valid() ==> r.0.Valid()
  {
    var last := Sum(heights) - height;
    var pos := if s.pos > last then Following else s.pos;
    (Scroll(pos, last), if pos < 0 then last else pos)
  }

  /**
   Scrolling up and then down again shows the same first line as before, once the
   window was redrawn and shows at least three lines below the top.
   */
  lemma UpThenDown(s: Scroll, heights: seq<nat>, height: int)
    requires s.Valid() && s.last == Sum(heights) - height && s.pos <= s.last
    requires CopyBody(s, heights, height).1 >= Step
    ensures CopyBody(ScrollDown(ScrollUp(s)), heights, height).1 == CopyBody(s, heights, height).1
  {
  }

  /** Scrolling down past the bottom returns to following it at the next redraw. */
  lemma DownPastBottomFollows(s: Scroll, heights: seq<nat>, height: int)
    requires s.pos >= 0 && s.pos + Step > Sum(heights) - height
    ensures CopyBody(ScrollDown(s), heights, height).0.pos == Following
    ensures CopyBody(ScrollDown(s), heights, height).1 == Sum(heights) - height
  {
  }
}
