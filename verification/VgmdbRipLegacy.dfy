/** Modules/vgmdbrip/vgmdbrip.py, the older scan downloader. Its `remove`
    is the same loop as `VgmdbRip.Remove`; it differs in where scans go and
    in trusting a saved session without checking it. */
module VgmdbRipLegacy {
  import opened Wrappers
  import Text
  import VgmdbRip

  /** The characters of the title literal, which is not a raw string here:
      `\"` is a quote and `\|` keeps its backslash, so the set is the one
      the newer module writes as a raw string. */
  const LegacyTitleForbidden: string := ['"', '*', '/', ':', '<', '>', '?', '\\', '|']

  lemma SameForbiddenCharacters()
    ensures forall c :: c in LegacyTitleForbidden <==> c in VgmdbRip.TitleForbidden
  {
  }

  /** The file name of a scan. */
  function ScanTitle(text: string): (r: string)
    ensures forall i :: 0 <= i < |LegacyTitleForbidden| ==> LegacyTitleForbidden[i] !in r
    ensures r == VgmdbRip.ScanTitle(text)
  {
    SameForbiddenCharacters();
    var r := VgmdbRip.Remove(Text.Strip(text), LegacyTitleForbidden);
    assert LegacyTitleForbidden == VgmdbRip.TitleForbidden;
    r
  }

  /** Scans always go to a "Scans" folder below the album folder. */
  function ScanFolder(folder: string): (r: string)
    ensures Text.BaseName(r) == "Scans" && Text.StartsWith(r, folder)
    ensures r == VgmdbRip.ScanFolder(folder, 2)
  {
    VgmdbRip.ScanFolder(folder, 2)
  }

  /** `login`: an existing session file is loaded as it is, without asking
      and without checking that it is still logged in (the newer `login`
      with every saved session taken as valid); otherwise the replies are
      read as in the newer module. */
  function Login(configExists: bool, replies: seq<string>): (r: Result<(VgmdbRip.LoginStep, nat)>)
    ensures configExists ==> r == Ok((VgmdbRip.LoggedIn, 0))
    ensures !configExists ==> r == VgmdbRip.LoginAttempts(replies)
    ensures r == VgmdbRip.Login(configExists, true, replies)
  {
    if configExists then Ok((VgmdbRip.LoggedIn, 0)) else VgmdbRip.LoginAttempts(replies)
  }
}
