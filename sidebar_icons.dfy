/**
 Which icon a sidebar entry shows (`SidebarItem.update_icon`). The choice
 depends only on whether the entry is hovered, whether it is selected,
 which of its two icon paths (regular and filled) are set, and which of
 those files exist.
 */
module SidebarIcons {
  import opened Wrappers
  import SvgFill

  /** Colour of the filled icon under the mouse pointer. */
  const HoverColor: string := "#4CC2FF"
  /** Colour of the regular icon of an entry that is neither hovered nor selected. */
  const IdleColor: string := "#808080"

  /**
   The icon put on the entry: none (a blank icon), a file shown with its
   own colours, or a file recoloured with `load_svg_icon_with_color`.
   */
  datatype Icon = Blank | Original(path: string) | Tinted(path: string, color: string)

  /** Python truthiness of an optional path: neither `None` nor `""`. */
  predicate Given(p: Option<string>) {
    p.Some? && p.value != ""
  }

  /** The decision of `update_icon`. */
  function ChooseIcon(hovered: bool, selected: bool, regular: Option<string>, filled: Option<string>,
                      existing: set<string>): Icon
  {
    if hovered && Given(filled) then
      (if filled.value in existing then Tinted(filled.value, HoverColor) else Blank)
    else if selected && Given(filled) then
      (if filled.value in existing then Original(filled.value) else Blank)
    else if Given(regular) then
      (if regular.value in existing then
         (if !selected && !hovered then Tinted(regular.value, IdleColor) else Original(regular.value))
       else Blank)
    else Blank
  }

  /** What the choice of `update_icon` means. */
  lemma ChooseIconMeaning(hovered: bool, selected: bool, regular: Option<string>, filled: Option<string>,
                          existing: set<string>)
    ensures var icon := ChooseIcon(hovered, selected, regular, filled, existing);
      // only files that exist are ever shown
      && (icon != Blank ==> icon.path in existing)
      // the hover colour is used exactly for a hovered entry whose filled icon exists
      && (icon.Tinted? && icon.color == HoverColor <==>
            hovered && Given(filled) && filled.value in existing)
      && (icon.Tinted? && icon.color == HoverColor ==> icon.path == filled.value)
      // a hovered entry whose filled file is missing gets no icon: no fall-through to the regular one
      && (hovered && Given(filled) && filled.value !in existing ==> icon == Blank)
      // a selected entry that is not hovered shows its filled icon in its own colours
      && (!hovered && selected && Given(filled) ==>
            icon == (if filled.value in existing then Original(filled.value) else Blank))
      // the grey regular icon is used exactly for an idle entry whose regular icon exists
      && (icon.Tinted? && icon.color == IdleColor <==>
            !hovered && !selected && Given(regular) && regular.value in existing)
      && (icon.Tinted? ==> icon.color == HoverColor || (regular.Some? && icon == Tinted(regular.value, IdleColor)))
      // an entry without a filled icon that is hovered or selected shows its regular icon uncoloured
      && ((hovered || selected) && !Given(filled) ==>
            icon == (if Given(regular) && regular.value in existing then Original(regular.value) else Blank))
      // an idle entry never shows the filled icon
      && (!hovered && !selected ==> icon == Blank || (regular.Some? && icon == Tinted(regular.value, IdleColor)))
  {
  }

  /**
   The SVG text an icon is drawn from, given the icon files on disk:
   nothing for the blank icon, the file as is, or the file after the fill
   rewrite.
   */
  function IconSvg(icon: Icon, files: map<string, string>): (svg: Option<string>)
    ensures icon != Blank && icon.path in files ==> svg.Some?
    ensures icon == Blank ==> svg == None
    ensures icon.Original? && icon.path in files ==> svg == Some(files[icon.path])
    ensures icon.Tinted? && icon.path in files ==> svg == Some(SvgFill.ReplaceFills(files[icon.path], icon.color))
    ensures icon != Blank && icon.path !in files ==> svg == None
  {
    match icon
    case Blank => None
    case Original(p) => if p in files then Some(files[p]) else None
    case Tinted(p, c) => SvgFill.LoadSvgWithColor(p, files, c)
  }

  /**
   When the files the choice consults are the files whose text is read, an
   icon chosen as present always has an image.
   */
  lemma ChosenIconRenders(hovered: bool, selected: bool, regular: Option<string>, filled: Option<string>,
                          files: map<string, string>)
    ensures var icon := ChooseIcon(hovered, selected, regular, filled, files.Keys);
      icon != Blank ==> IconSvg(icon, files).Some?
  {
    ChooseIconMeaning(hovered, selected, regular, filled, files.Keys);
  }
}
