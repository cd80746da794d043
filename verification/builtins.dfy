/** The `cd` built-in (src/builtins.rs): HOME lookup, `~` expansion, and the
    one `set_current_dir` call. The environment is a map and the outcome of
    `set_current_dir` is an oracle. */
module Builtins {
  import opened Wrappers

  /** `get_home_dir` (src/builtins.rs:20-30): the value of HOME if it is set. */
  function GetHomeDir(env: map<string, string>): (r: Option<string>)
    ensures r.Some? <==> "HOME" in env
    ensures r.Some? ==> r.value == env["HOME"]
  {
    if "HOME" in env then Some(env["HOME"]) else None
  }

  predicate IsAbsolute(p: string) {
    |p| > 0 && p[0] == '/'
  }

  /** `PathBuf::push` on Unix: an absolute path replaces the buffer; otherwise
      a `/` is inserted when the buffer is non-empty and does not already end
      with one, and the path is appended (so pushing "" adds a trailing `/`). */
  function Push(buf: string, p: string): (r: string)
    ensures IsAbsolute(p) ==> r == p
    ensures !IsAbsolute(p) ==> r == buf + (if |buf| > 0 && buf[|buf| - 1] != '/' then "/" else "") + p
    ensures !IsAbsolute(p) ==> r[..|buf|] == buf && r[|r| - |p|..] == p
  {
    if IsAbsolute(p) then p
    else if |buf| > 0 && buf[|buf| - 1] != '/' then buf + "/" + p
    else buf + p
  }

  /** Whether `c` takes one byte in UTF-8. After a leading `~` (one byte), byte
      index 2 is a character boundary exactly when the second character is
      one byte long; otherwise the slice `target_path[2..]` panics. */
  predicate OneByte(c: char) {
    c as int < 0x80
  }

  /** The path `change_dir` hands to `set_current_dir` (src/builtins.rs:5-15),
      or `None` when the slice at src/builtins.rs:11 panics. The byte length
      test `len() >= 2` is the character count test here, because `~` is a
      single byte. */
  function ResolveTarget(home: string, target: string): (r: Option<string>)
    ensures r.None? <==> |target| >= 2 && target[0] == '~' && !OneByte(target[1])
    ensures (|target| == 0 || target[0] != '~') ==> r == Some(target)
    ensures target == "~" ==> r == Some(home)
    ensures |target| >= 2 && target[0] == '~' && OneByte(target[1])
        ==> r == Some(Push(home, target[2..]))
  {
    PushOntoEmpty(home);
    PushOntoEmpty(target);
    if |target| > 0 && target[0] == '~' then
      var root := Push("", home);
      if |target| >= 2 then
        if OneByte(target[1]) then Some(Push(root, target[2..])) else None
      else
        Some(root)
    else
      Some(Push("", target))
  }

  /** Pushing onto the empty `PathBuf::new()` gives the pushed path itself. */
  lemma PushOntoEmpty(p: string)
    ensures Push("", p) == p
  {
  }

  /** `~/sub` resolves to HOME joined with `sub`. */
  lemma TildeSubdirectory(home: string, rest: string)
    requires |home| > 0 && home[|home| - 1] != '/'
    requires !IsAbsolute(rest)
    ensures ResolveTarget(home, "~/" + rest) == Some(home + "/" + rest)
  {
  }

  /** The character after `~` is dropped whatever it is: `~abc` resolves like
      `~/bc`. */
  lemma TildeDropsSecondChar(home: string, c: char, rest: string)
    requires OneByte(c)
    ensures ResolveTarget(home, ['~', c] + rest) == ResolveTarget(home, "~/" + rest)
  {
  }

  /** What one `change_dir` call does. */
  datatype CdOutcome =
    | CdPanicked                       // HOME unset, or the slice panicked
    | CdCalled(path: string, ok: bool) // set_current_dir(path) returned ok

  /** `change_dir` (src/builtins.rs:3-18): HOME must be set even when the
      target has no `~`; the only effect is one `set_current_dir` on the
      resolved path, whose result is returned unchanged. */
  function ChangeDir(env: map<string, string>, target: string, setDirOk: string -> bool): (r: CdOutcome)
    ensures r.CdPanicked? <==> "HOME" !in env || (|target| >= 2 && target[0] == '~' && !OneByte(target[1]))
    ensures r.CdCalled? ==> r.ok == setDirOk(r.path)
    ensures "HOME" in env && (|target| == 0 || target[0] != '~') ==> r.CdCalled? && r.path == target
    ensures "HOME" in env && target == "~" ==> r.CdCalled? && r.path == env["HOME"]
    ensures "HOME" in env && |target| >= 2 && target[0] == '~' && OneByte(target[1])
        ==> r.CdCalled? && r.path == Push(env["HOME"], target[2..])
  {
    match GetHomeDir(env)
    case None => CdPanicked
    case Some(home) =>
      match ResolveTarget(home, target)
      case None => CdPanicked
      case Some(p) => CdCalled(p, setDirOk(p))
  }
}
