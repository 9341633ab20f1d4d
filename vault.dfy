/**
 The main window (`VaultWindow`): the chosen vault folder and the status
 line that reports it, maximizing and restoring together with the title
 bar's button and the rounded-corner mask, and dropping files into the
 vault.

 The dialog that picks a folder and the copy routine are parameters: the
 folder the dialog returned ("" when cancelled), and a copy oracle as in
 `VaultImport`. Message boxes are recorded, in order, in `notices`.
 */
module Vault {
  import opened Geometry
  import opened PosixPath
  import opened TitleBar
  import opened VaultImport

  /** The corner radius of the window's outline, in pixels. */
  const CornerRadius: nat := 12

  /** The window mask: none, or a rounded rectangle covering the whole window. */
  datatype Mask = NoMask | RoundedMask(width: nat, height: nat, radius: nat)

  /** The window's size, whether it is maximized, and its mask. */
  datatype Shape = Shape(maximized: bool, width: nat, height: nat, mask: Mask)

  /**
   A maximized window has no mask; any other window is masked by a
   rounded rectangle of its own current size.
   */
  ghost predicate MaskFits(s: Shape) {
    if s.maximized then s.mask == NoMask else s.mask == RoundedMask(s.width, s.height, CornerRadius)
  }

  /** `toggle_maximize`. */
  function Toggle(s: Shape): (t: Shape)
    ensures t.maximized == !s.maximized
    ensures t.width == s.width && t.height == s.height
    ensures MaskFits(t)
  {
    if s.maximized then Shape(false, s.width, s.height, RoundedMask(s.width, s.height, CornerRadius))
    else Shape(true, s.width, s.height, NoMask)
  }

  /** `resizeEvent`: a window that is not maximized has its mask recomputed for the new size. */
  function Resized(s: Shape, w: nat, h: nat): (t: Shape)
    ensures t.maximized == s.maximized && t.width == w && t.height == h
    ensures MaskFits(s) ==> MaskFits(t)
    ensures t.maximized ==> t.mask == s.mask
  {
    if s.maximized then Shape(true, w, h, s.mask)
    else Shape(false, w, h, RoundedMask(w, h, CornerRadius))
  }

  /** Maximizing and restoring again gives back the window as it was. */
  lemma ToggleTwice(s: Shape)
    requires MaskFits(s)
    ensures Toggle(Toggle(s)) == s
  {
  }

  /** A resize while maximized is picked up by the mask as soon as the window is restored. */
  lemma RestoreUsesLatestSize(s: Shape, w: nat, h: nat)
    requires s.maximized
    ensures Toggle(Resized(s, w, h)).mask == RoundedMask(w, h, CornerRadius)
  {
  }

  /** The status line's text for a vault folder ("" when none has been chosen). */
  function StatusText(vaultDir: Path): (t: string)
    ensures vaultDir == "" ==> t == "尚未选择保险箱文件夹"
    ensures vaultDir != "" ==> t == "当前保险箱：" + vaultDir && t[|"当前保险箱："|..] == vaultDir
  {
    if vaultDir == "" then "尚未选择保险箱文件夹" else "当前保险箱：" + vaultDir
  }

  class VaultWindow {
    var vaultDir: Path
    /** The root path of the file view (`file_model.setRootPath`). */
    var rootPath: Path
    var status: string
    var maximized: bool
    var width: nat
    var height: nat
    var mask: Mask
    /** Which paths exist, and whether each is a regular file. */
    var fs: map<Path, bool>
    /** Every message box shown so far, in order. */
    var notices: seq<Notice>
    const titleBar: CustomTitleBar

    function CurrentShape(): Shape
      reads this
    {
      Shape(maximized, width, height, mask)
    }

    ghost predicate Valid()
      reads this, titleBar
    {
      && titleBar.isMaximized == maximized
      && titleBar.maximizeGlyph == MaximizeGlyph(maximized)
      && MaskFits(CurrentShape())
      && status == StatusText(vaultDir)
      && rootPath == vaultDir
    }

    /** `__init__`: a 900 by 600 window at (100, 100), no vault chosen yet. */
    constructor (fs: map<Path, bool>)
      ensures Valid()
      ensures vaultDir == "" && status == "尚未选择保险箱文件夹"
      ensures !maximized && width == 900 && height == 600
      ensures mask == RoundedMask(900, 600, CornerRadius)
      ensures titleBar.title == "Simond 保险箱" && titleBar.windowPos == Point(100, 100)
      ensures this.fs == fs && notices == []
    {
      vaultDir, rootPath := "", "";
      status := "尚未选择保险箱文件夹";
      maximized, width, height := false, 900, 600;
      mask := RoundedMask(900, 600, CornerRadius);
      this.fs, notices := fs, [];
      titleBar := new CustomTitleBar("Simond 保险箱", Point(100, 100));
    }

    /** `toggle_maximize`: the window, the title bar's button and the mask change together. */
    method ToggleMaximize()
      requires Valid()
      modifies this`maximized, this`mask, titleBar`isMaximized, titleBar`maximizeGlyph
      ensures Valid()
      ensures CurrentShape() == Toggle(old(CurrentShape()))
    {
      if maximized {
        maximized := false;
        titleBar.UpdateMaximizeButton(false);
        mask := RoundedMask(width, height, CornerRadius);
      } else {
        mask := NoMask;
        maximized := true;
        titleBar.UpdateMaximizeButton(true);
      }
    }

    /** `resizeEvent`. */
    method Resize(w: nat, h: nat)
      requires Valid()
      modifies this`width, this`height, this`mask
      ensures Valid()
      ensures CurrentShape() == Resized(old(CurrentShape()), w, h)
    {
      width, height := w, h;
      if !maximized {
        mask := RoundedMask(w, h, CornerRadius);
      }
    }

    /**
     `choose_vault_dir`, given the folder the dialog returned: a cancelled
     dialog ("") changes nothing; otherwise the folder becomes the vault,
     the file view's root and the subject of the status line.
     */
    method ChooseVaultDir(directory: Path)
      requires Valid()
      modifies this`vaultDir, this`rootPath, this`status
      ensures Valid()
      ensures directory == "" ==> vaultDir == old(vaultDir) && status == old(status)
      ensures directory != "" ==> vaultDir == directory && rootPath == directory
      ensures directory != "" ==> status == "当前保险箱：" + directory
    {
      if directory != "" {
        vaultDir := directory;
        rootPath := directory;
        status := "当前保险箱：" + directory;
      }
    }

    /**
     `dropEvent` for the local paths of the dropped URLs ("" for a URL that
     is not a local file). An empty drop is ignored silently; a drop before
     a vault is chosen is refused with a warning; otherwise every regular
     file is copied into the vault, in drop order, and one message reports
     the batch. `accepted` tells whether the drop was accepted.
     */
    method Drop(urls: seq<Path>, copy: (Path, Path) -> CopyResult) returns (accepted: bool)
      requires Valid()
      modifies this`fs, this`notices
      ensures Valid()
      ensures urls == [] ==> !accepted && fs == old(fs) && notices == old(notices)
      ensures urls != [] && vaultDir == "" ==>
                !accepted && fs == old(fs) && notices == old(notices) + [NoVaultNotice]
      ensures urls != [] && vaultDir != "" ==>
                var b := Import(vaultDir, urls, old(fs), copy);
                accepted && fs == b.fs && notices == old(notices) + [Outcome(b.copied, b.failed)]
    {
      if urls == [] {
        return false;
      }
      if vaultDir == "" {
        notices := notices + [NoVaultNotice];
        return false;
      }
      var copied, failed := CopyIntoVault(urls, copy);
      notices := notices + [Outcome(copied, failed)];
      accepted := true;
    }

    /** The loop of `dropEvent`: copy every dropped regular file into the vault, in order. */
    method CopyIntoVault(urls: seq<Path>, copy: (Path, Path) -> CopyResult) returns (copied: nat, failed: seq<Failure>)
      modifies this`fs
      ensures var b := Import(vaultDir, urls, old(fs), copy);
        copied == b.copied && failed == b.failed && fs == b.fs
    {
      copied, failed := 0, [];
      ghost var attempts: seq<Attempt> := [];
      for i := 0 to |urls|
        invariant Batch(copied, failed, attempts, fs) == Import(vaultDir, urls[..i], old(fs), copy)
      {
        ImportPrefixStep(vaultDir, urls, i, old(fs), copy);
        var local := urls[i];
        if local == "" || !(local in fs && fs[local]) {
          continue;
        }
        var name := Basename(local);
        var dest := Join(vaultDir, name);
        attempts := attempts + [Attempt(local, dest)];
        match copy(local, dest)
        case Copied =>
          fs := fs[dest := true];
          copied := copied + 1;
        case CopyFailed(e) =>
          failed := failed + [Failure(name, e)];
      }
      assert urls[..|urls|] == urls;
    }
  }
}
