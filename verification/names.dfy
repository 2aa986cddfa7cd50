/**
 How the scheduler names things. A rule with identifier `id` is saved under the
 storage key `config${id}` and armed as the host alarm `timelessAlarm${id}`; the
 identifier is recovered with `.replace('config', '')` at startup and with
 `.replace('timelessAlarm', '')` in the repair sweep. The sweep's own alarm is
 `verifyAlarms`.
 */
module Names {
  import opened Text

  const AlarmPrefix := "timelessAlarm"
  const ConfigPrefix := "config"
  const SweepAlarmName := "verifyAlarms"

  /** `timelessAlarm${id}`. */
  function AlarmName(id: string): (name: string)
    ensures StartsWith(name, AlarmPrefix) && name[|AlarmPrefix|..] == id
  {
    assert (AlarmPrefix + id)[..|AlarmPrefix|] == AlarmPrefix;
    AlarmPrefix + id
  }

  /** `alarmName.replace('timelessAlarm', '')`. */
  function IdOfAlarmName(name: string): (id: string)
    ensures StartsWith(name, AlarmPrefix) ==> id == name[|AlarmPrefix|..]
    ensures IndexOf(name, AlarmPrefix) == -1 ==> id == name
  {
    ReplaceFirst(name, AlarmPrefix, "")
  }

  /** `config${id}`. */
  function ConfigKey(id: string): (key: string)
    ensures StartsWith(key, ConfigPrefix) && key[|ConfigPrefix|..] == id
  {
    assert (ConfigPrefix + id)[..|ConfigPrefix|] == ConfigPrefix;
    ConfigPrefix + id
  }

  /** `key.replace('config', '')`. */
  function IdOfConfigKey(key: string): (id: string)
    ensures StartsWith(key, ConfigPrefix) ==> id == key[|ConfigPrefix|..]
    ensures IndexOf(key, ConfigPrefix) == -1 ==> id == key
  {
    ReplaceFirst(key, ConfigPrefix, "")
  }

  /** The sweep recovers the identifier an alarm was created for, whatever it is
      (even one that itself contains `timelessAlarm`). */
  lemma AlarmNameRoundTrip(id: string)
    ensures StartsWith(AlarmName(id), AlarmPrefix)
    ensures IdOfAlarmName(AlarmName(id)) == id
  {
    assert AlarmName(id)[..|AlarmPrefix|] == AlarmPrefix;
    ReplacePrefix(AlarmName(id), AlarmPrefix);
    assert AlarmName(id)[|AlarmPrefix|..] == id;
  }

  /** Conversely, re-creating the alarm for the recovered identifier reproduces the
      name exactly when the name carries the alarm prefix. */
  lemma AlarmNameOfId(name: string)
    ensures StartsWith(name, AlarmPrefix) <==> AlarmName(IdOfAlarmName(name)) == name
  {
    if StartsWith(name, AlarmPrefix) {
      ReplacePrefix(name, AlarmPrefix);
      assert name == name[..|AlarmPrefix|] + name[|AlarmPrefix|..];
    } else if AlarmName(IdOfAlarmName(name)) == name {
      AlarmNameRoundTrip(IdOfAlarmName(name));
    }
  }

  /** Startup recovers the identifier a rule was saved under. */
  lemma ConfigKeyRoundTrip(id: string)
    ensures StartsWith(ConfigKey(id), ConfigPrefix)
    ensures IdOfConfigKey(ConfigKey(id)) == id
  {
    assert ConfigKey(id)[..|ConfigPrefix|] == ConfigPrefix;
    ReplacePrefix(ConfigKey(id), ConfigPrefix);
    assert ConfigKey(id)[|ConfigPrefix|..] == id;
  }

  /** Every storage key that passes the `startsWith('config')` filter is the key of
      the identifier startup extracts from it. */
  lemma ConfigKeyOfId(key: string)
    requires StartsWith(key, ConfigPrefix)
    ensures ConfigKey(IdOfConfigKey(key)) == key
  {
    ReplacePrefix(key, ConfigPrefix);
    assert key == key[..|ConfigPrefix|] + key[|ConfigPrefix|..];
  }

  /** Different identifiers get different alarms. */
  lemma AlarmNameInjective(a: string, b: string)
    ensures AlarmName(a) == AlarmName(b) ==> a == b
  {
    if AlarmName(a) == AlarmName(b) {
      AlarmNameRoundTrip(a);
      AlarmNameRoundTrip(b);
    }
  }

  /** No rule's alarm can be mistaken for the sweep alarm. */
  lemma PrefixedIsNotSweep(name: string)
    requires StartsWith(name, AlarmPrefix)
    ensures name != SweepAlarmName
  {
    assert name[0] == 't';
  }
}
