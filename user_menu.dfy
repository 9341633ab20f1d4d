/**
 The user-settings popover (`UserSettingsMenu`): a fixed list of entries
 under a user header with a logout button, shown at an anchor point with
 an expanding animation and hidden after any entry is activated or when
 it loses focus.

 The animation's timing and easing are not modelled: `running` says
 whether the geometry animation is in progress, and `FinishAnimation`
 stands for the moment it completes.
 */
module UserMenu {
  import opened Geometry

  /** The menu's fixed width (`setFixedWidth(280)`). */
  const MenuWidth: int := 280

  /** The menu's signals. */
  datatype MenuSignal =
    | LogoutClicked
    | PaymentMethodsClicked
    | RedeemCodeClicked
    | PaymentHelpClicked
    | ManageAccountClicked
    | SendFeedbackClicked
    | StorageSettingsClicked

  /** A signal sent, with whether the menu was still shown when its slots ran. */
  datatype Emission = Emission(signal: MenuSignal, shownThen: bool)

  /** One entry of the menu list: its label, the signal it sends, its icon text. */
  datatype MenuEntry = MenuEntry(text: string, signal: MenuSignal, icon: string)

  /** The entries in the order `init_ui` lays them out. */
  const MenuEntries: seq<MenuEntry> := [
    MenuEntry("支付方式", PaymentMethodsClicked, "💳"),
    MenuEntry("兑换代码或礼品卡", RedeemCodeClicked, "🎁"),
    MenuEntry("有关付款和退款的帮助", PaymentHelpClicked, "❓"),
    MenuEntry("管理帐户和设备", ManageAccountClicked, "🖥️"),
    MenuEntry("发送反馈", SendFeedbackClicked, "✈️"),
    MenuEntry("存储设置", StorageSettingsClicked, "⚙️")
  ]

  /** Six entries, each bound to its own signal, none of them logout. */
  lemma MenuEntriesAreFixed()
    ensures |MenuEntries| == 6
    ensures forall i, j :: 0 <= i < j < |MenuEntries| ==> MenuEntries[i].signal != MenuEntries[j].signal
    ensures forall i :: 0 <= i < |MenuEntries| ==> MenuEntries[i].signal != LogoutClicked
  {
    forall i, j | 0 <= i < j < |MenuEntries|
      ensures MenuEntries[i].signal != MenuEntries[j].signal
    {
    }
  }

  /**
   The start and end of the opening animation for anchor `p`: the same
   corner and width, growing from no height to the full height.
   */
  function OpeningRects(p: Point, width: int, height: int): (r: (Rect, Rect))
    ensures r.0.x == r.1.x == p.x && r.0.y == r.1.y == p.y
    ensures r.0.width == r.1.width == width
    ensures r.0.height == 0 && r.1.height == height
  {
    (Rect(p.x, p.y, width, 0), Rect(p.x, p.y, width, height))
  }

  class UserSettingsMenu {
    /** The height `adjustSize` gives the menu for its contents. */
    const fullHeight: nat
    var visible: bool
    var focused: bool
    var geometry: Rect
    /** Whether the geometry animation is in progress. */
    var running: bool
    var animStart: Rect
    var animEnd: Rect
    /** The signals sent so far, in order. */
    var emitted: seq<Emission>

    /**
     The menu keeps its fixed width, has focus only while shown, and a
     running animation opens the full-height menu from a zero-height
     strip at the same corner.
     */
    ghost predicate Valid()
      reads this
    {
      && geometry.width == MenuWidth
      && (focused ==> visible)
      && (running ==> (animStart, animEnd) == OpeningRects(Point(animEnd.x, animEnd.y), MenuWidth, fullHeight))
    }

    constructor (fullHeight: nat)
      ensures Valid()
      ensures this.fullHeight == fullHeight
      ensures !visible && !focused && !running && emitted == []
    {
      this.fullHeight := fullHeight;
      visible, focused, running := false, false, false;
      geometry := Rect(0, 0, MenuWidth, fullHeight);
      animStart, animEnd := geometry, geometry;
      emitted := [];
    }

    /** `hide()`. */
    method Hide()
      requires Valid()
      modifies this`visible, this`focused
      ensures Valid()
      ensures !visible && !focused
    {
      visible, focused := false, false;
    }

    /**
     `show_at_position`: collapse to the anchor, show and focus, and start
     the opening animation unless one is already running.
     */
    method ShowAtPosition(p: Point)
      requires Valid()
      modifies this`visible, this`focused, this`geometry, this`running, this`animStart, this`animEnd
      ensures Valid()
      ensures visible && focused && running
      ensures geometry == OpeningRects(p, MenuWidth, fullHeight).0
      ensures old(running) ==> animStart == old(animStart) && animEnd == old(animEnd)
      ensures !old(running) ==> (animStart, animEnd) == OpeningRects(p, MenuWidth, fullHeight)
    {
      var rects := OpeningRects(p, MenuWidth, fullHeight);
      geometry := rects.0;
      visible, focused := true, true;
      if !running {
        animStart, animEnd := rects.0, rects.1;
        running := true;
      }
    }

    /** The animation reaches its end value and stops. */
    method FinishAnimation()
      requires Valid()
      modifies this`geometry, this`running
      ensures Valid()
      ensures !running
      ensures old(running) ==> geometry == animEnd
      ensures !old(running) ==> geometry == old(geometry)
    {
      if running {
        geometry := animEnd;
        running := false;
      }
    }

    /** Activating entry `k` of the list: send its signal while the menu is shown, then hide. */
    method ClickEntry(k: nat)
      requires k < |MenuEntries|
      requires Valid()
      modifies this`emitted, this`visible, this`focused
      ensures Valid()
      ensures emitted == old(emitted) + [Emission(MenuEntries[k].signal, old(visible))]
      ensures !visible && !focused
    {
      emitted := emitted + [Emission(MenuEntries[k].signal, visible)];
      Hide();
    }

    /** The logout button: send `logout_clicked` while the menu is shown, then hide. */
    method ClickLogout()
      requires Valid()
      modifies this`emitted, this`visible, this`focused
      ensures Valid()
      ensures emitted == old(emitted) + [Emission(LogoutClicked, old(visible))]
      ensures !visible && !focused
    {
      emitted := emitted + [Emission(LogoutClicked, visible)];
      Hide();
    }

    /** `focusOutEvent`: losing focus hides the menu, whatever its state. */
    method FocusOut()
      requires Valid()
      modifies this`visible, this`focused
      ensures Valid()
      ensures !visible && !focused
    {
      Hide();
    }
  }
}
