/** The text keys of the engine's maps: "<device>|<fence>" and their like. */
module Keys {

  predicate Free(s: string, c: char) {
    forall i :: 0 <= i < |s| ==> s[i] != c
  }

  /** The domain's id pattern: lower-case letters, digits and dashes, no dash in front, 64 at most. */
  predicate Slug(s: string) {
    && 1 <= |s| <= 64
    && s[0] != '-'
    && forall i :: 0 <= i < |s| ==> 'a' <= s[i] <= 'z' || '0' <= s[i] <= '9' || s[i] == '-'
  }

  predicate ValidFenceID(s: string) {
    Slug(s) && s != "none"
  }

  // -------- The actions a device can be ordered (internal/domain/action) --------

  const ACTIONS: set<string> :=
    {"lock", "wipe", "message", "locate", "reboot", "clear_passcode", "set_compliance", "custom", "notify"}

  predicate Destructive(action: string) {
    action in {"lock", "wipe", "clear_passcode", "reboot"}
  }

  function MarkKey(deviceID: string, fenceID: string): string {
    deviceID + "|" + fenceID
  }

  lemma LastBar(d: string, f: string)
    requires Free(f, '|')
    ensures MarkKey(d, f)[|d|] == '|'
    ensures forall i :: |d| < i < |MarkKey(d, f)| ==> MarkKey(d, f)[i] != '|'
  {
    forall i | |d| < i < |MarkKey(d, f)| ensures MarkKey(d, f)[i] != '|' {
      assert MarkKey(d, f)[i] == f[i - |d| - 1];
    }
  }

  /** A device id may hold any text; the key is still unambiguous, because the second part has no bar. */
  lemma MarkKeyInjective(d: string, f: string, d': string, f': string)
    requires Free(f, '|') && Free(f', '|')
    requires MarkKey(d, f) == MarkKey(d', f')
    ensures d == d' && f == f'
  {
    LastBar(d, f);
    LastBar(d', f');
    var k := MarkKey(d, f);
    assert |d| == |d'|;
    assert d == k[..|d|] && d' == k[..|d|];
    assert f == k[|d| + 1..] && f' == k[|d| + 1..];
  }
}
