/** Engine.GetIcon: the fallback chain that finds an icon handle for a process's main
    window. The four Win32 queries are supplied by the caller as a `Win32` value. */
module Icons {
  import opened Processes

  datatype Option<T> = None | Some(value: T)

  /** The results of the two foreign calls GetIcon makes:
      SendMessage(hWnd, msg, wParam, IntPtr.Zero) and GetClassLong(hWnd, nIndex). */
  datatype Win32 = Win32(sendMessage: (int, int, int) -> int, getClassLong: (int, int) -> int)

  const WM_GETICON: int := 0x7f
  const ICON_SMALL: int := 0
  const ICON_BIG: int := 1
  const GCL_HICONSM: int := -34
  const GCL_HICON: int := -14

  /** The explicit (int) conversion of an IntPtr is checked: it throws an
      OverflowException for a handle outside the 32-bit range. */
  predicate FitsInt32(h: int) {
    -0x8000_0000 <= h < 0x8000_0000
  }

  /** The handles GetIcon can look at, in the order it asks for them: the window's small
      icon, its big icon, then (only when the handle survives the (int) cast) the class's
      small icon and the class's icon. */
  function IconCandidates(hWnd: int, os: Win32): seq<int> {
    [os.sendMessage(hWnd, WM_GETICON, ICON_SMALL), os.sendMessage(hWnd, WM_GETICON, ICON_BIG)]
    + if FitsInt32(hWnd) then [os.getClassLong(hWnd, GCL_HICONSM), os.getClassLong(hWnd, GCL_HICON)]
      else []
  }

  /** Reference definition of "the first non-zero handle in a list". */
  function FirstNonZero(s: seq<int>): (r: Option<int>)
    ensures r.None? <==> forall k :: 0 <= k < |s| ==> s[k] == 0
    ensures r.Some? ==>
      exists k :: 0 <= k < |s| && s[k] == r.value && r.value != 0 && forall j :: 0 <= j < k ==> s[j] == 0
  {
    if s == [] then None
    else if s[0] != 0 then Some(s[0])
    else
      var r := FirstNonZero(s[1..]);
      assert forall k :: 1 <= k < |s| ==> s[k] == s[1..][k - 1];
      r
  }

  /** Engine.GetIcon as written: early returns on the first non-zero handle; a zero main
      window handle, an overflowing cast or four zero answers end in the catch block,
      which returns null (after an alert, which is not modelled). */
  function GetIcon(p: Process, os: Win32): (r: Option<int>)
    ensures p.mainWindowHandle == 0 ==> r == None
    ensures p.mainWindowHandle != 0 ==> r == FirstNonZero(IconCandidates(p.mainWindowHandle, os))
    ensures r.Some? ==> r.value != 0
  {
    var h := p.mainWindowHandle;
    if h == 0 then None
    else
      var c := IconCandidates(h, os);
      assert c[0] == os.sendMessage(h, WM_GETICON, ICON_SMALL);
      assert c[1..][0] == os.sendMessage(h, WM_GETICON, ICON_BIG);
      var small := os.sendMessage(h, WM_GETICON, ICON_SMALL);
      if small != 0 then Some(small)
      else
        var big := os.sendMessage(h, WM_GETICON, ICON_BIG);
        if big != 0 then Some(big)
        else if !FitsInt32(h) then
          assert c[1..][1..] == [];
          None
        else
          assert c[1..][1..][0] == os.getClassLong(h, GCL_HICONSM);
          assert c[1..][1..][1..][0] == os.getClassLong(h, GCL_HICON);
          assert c[1..][1..][1..][1..] == [];
          var classSmall := os.getClassLong(h, GCL_HICONSM);
          if classSmall != 0 then Some(classSmall)
          else
            var classBig := os.getClassLong(h, GCL_HICON);
            if classBig != 0 then Some(classBig)
            else None
  }

  /** A window that answers only the class-level small-icon query still gets that icon. */
  lemma ClassSmallIconIsFallback(p: Process, os: Win32)
    requires p.mainWindowHandle != 0 && FitsInt32(p.mainWindowHandle)
    requires os.sendMessage(p.mainWindowHandle, WM_GETICON, ICON_SMALL) == 0
    requires os.sendMessage(p.mainWindowHandle, WM_GETICON, ICON_BIG) == 0
    requires os.getClassLong(p.mainWindowHandle, GCL_HICONSM) != 0
    ensures GetIcon(p, os) == Some(os.getClassLong(p.mainWindowHandle, GCL_HICONSM))
  {
  }
}
