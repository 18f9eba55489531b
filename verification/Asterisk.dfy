/** The part of the detected Asterisk inventory that the PBX and communication services read. */
module Asterisk {
  import opened GoStrings

  datatype Capability = Capability(key: string, available: bool)
  datatype Subsystem = Subsystem(key: string, provider: string)

  datatype AsteriskState = AsteriskState(
    channelDrivers: seq<string>,
    endpointStacks: seq<string>,
    capabilities: seq<Capability>,
    subsystems: seq<Subsystem>)

  function NormalKey(key: string): string { TrimSpace(ToLower(key)) }

  /** The first capability entry of that key decides. */
  predicate Available(capabilities: seq<Capability>, key: string) {
    if capabilities == [] then false
    else if capabilities[0].key == key then capabilities[0].available
    else Available(capabilities[1..], key)
  }

  predicate HasCapability(state: AsteriskState, key: string) {
    Available(state.capabilities, NormalKey(key))
  }

  /** A capability counts as there when the first entry of its key, trimmed and lowered, says so. */
  lemma HasCapabilityIff(state: AsteriskState, key: string)
    ensures HasCapability(state, key) <==>
              exists i :: 0 <= i < |state.capabilities| && FirstEntryAt(state.capabilities, TrimSpace(ToLower(key)), i)
                          && state.capabilities[i].available
  {
    AvailableIff(state.capabilities, TrimSpace(ToLower(key)));
  }

  /** For a key in normal form: some subsystem of that very key names a provider. */
  lemma HasSubsystemIff(state: AsteriskState, key: string)
    requires Lowered(key) && Trimmed(key)
    ensures HasSubsystem(state, key) <==> exists s :: s in state.subsystems && s.key == key && TrimSpace(s.provider) != ""
  {
    ToLowerFixed(key);
    hide TrimSpace, ToLower;
    if s :| s in state.subsystems && s.key == key && TrimSpace(s.provider) != "" {
      var i :| 0 <= i < |state.subsystems| && state.subsystems[i] == s;
    }
  }

  predicate FirstEntryAt(capabilities: seq<Capability>, key: string, i: nat)
    requires i < |capabilities|
  {
    capabilities[i].key == key && forall k :: 0 <= k < i ==> capabilities[k].key != key
  }

  lemma {:induction false} AvailableIff(capabilities: seq<Capability>, key: string)
    ensures Available(capabilities, key) <==>
              exists i :: 0 <= i < |capabilities| && FirstEntryAt(capabilities, key, i) && capabilities[i].available
  {
    if capabilities != [] {
      var rest := capabilities[1..];
      AvailableIff(rest, key);
      if capabilities[0].key == key {
        assert FirstEntryAt(capabilities, key, 0);
      } else {
        forall i | 0 <= i < |rest| ensures FirstEntryAt(capabilities, key, i + 1) <==> FirstEntryAt(rest, key, i) {
          assert forall k :: 0 <= k < i ==> rest[k] == capabilities[k + 1];
        }
        if i :| 0 <= i < |capabilities| && FirstEntryAt(capabilities, key, i) && capabilities[i].available {
          assert FirstEntryAt(rest, key, i - 1);
        }
      }
    }
  }

  predicate HasAnyCapability(state: AsteriskState, keys: seq<string>) {
    exists i :: 0 <= i < |keys| && HasCapability(state, keys[i])
  }

  lemma OneKey(state: AsteriskState, a: string)
    ensures HasAnyCapability(state, [a]) <==> HasCapability(state, a)
  {
    hide HasCapability;
    assert [a][0] == a;
  }

  lemma TwoKeys(state: AsteriskState, a: string, b: string)
    ensures HasAnyCapability(state, [a, b]) <==> HasCapability(state, a) || HasCapability(state, b)
  {
    hide HasCapability;
    assert [a, b][0] == a && [a, b][1] == b;
  }

  lemma ThreeKeys(state: AsteriskState, a: string, b: string, c: string)
    ensures HasAnyCapability(state, [a, b, c]) <==> HasCapability(state, a) || HasCapability(state, b) || HasCapability(state, c)
  {
    hide HasCapability;
    var keys := [a, b, c];
    assert keys[0] == a && keys[1] == b && keys[2] == c;
  }

  predicate HasSubsystem(state: AsteriskState, key: string) {
    exists i :: 0 <= i < |state.subsystems| && state.subsystems[i].key == NormalKey(key) && TrimSpace(state.subsystems[i].provider) != ""
  }
}
