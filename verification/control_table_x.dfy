/** The register map of the X-series servos, `ControlTableX`: sixty fields,
    each with its address, type, EEPROM flag and writable flag, laid out end to
    end over 147 bytes, with no two fields sharing a name. */
module ControlTableX {
  import opened Bytes
  import opened Fields
  import opened ControlTable

  /** The number of entries of `ControlTableX.fields`. */
  const FieldCount: nat := 60

  /** `ControlTableX.size`: the bytes the register map spans. */
  const Size: nat := 147

  /** Entry `i` of `ControlTableX.fields`, in declaration order; the EEPROM
      area ends with entry 24 (`shutdown`). Every entry has a fixed width,
      fits in the map, and is EEPROM exactly below address 64. The list is
      split in blocks of five entries. */
  function FieldAt(i: nat): (f: Field)
    requires i < FieldCount
    ensures f.eeprom <==> f.address < 64
    ensures Width(f.ftype).Some? && f.address + Width(f.ftype).value <= Size
  {
    if i < 5 then FieldsFrom00(i)
    else if i < 10 then FieldsFrom05(i)
    else if i < 15 then FieldsFrom10(i)
    else if i < 20 then FieldsFrom15(i)
    else if i < 25 then FieldsFrom20(i)
    else if i < 30 then FieldsFrom25(i)
    else if i < 35 then FieldsFrom30(i)
    else if i < 40 then FieldsFrom35(i)
    else if i < 45 then FieldsFrom40(i)
    else if i < 50 then FieldsFrom45(i)
    else if i < 55 then FieldsFrom50(i)
    else FieldsFrom55(i)
  }

  /** Entries 0 to 4 of `fields`. */
  function FieldsFrom00(i: nat): (f: Field)
    requires 0 <= i < 5
    ensures f.eeprom <==> f.address < 64
    ensures Width(f.ftype).Some? && f.address + Width(f.ftype).value <= Size
  {
    match i
    case 0 => Field(true, "model_number", UInt16, 0, false)
    case 1 => Field(true, "model_information", UInt32, 2, false)
    case 2 => Field(true, "firmware_version", UInt8, 6, false)
    case 3 => Field(true, "id", UInt8, 7, true)
    case _ => Field(true, "baud_rate", UInt8, 8, true)
  }

  /** Entries 5 to 9 of `fields`. */
  function FieldsFrom05(i: nat): (f: Field)
    requires 5 <= i < 10
    ensures f.eeprom <==> f.address < 64
    ensures Width(f.ftype).Some? && f.address + Width(f.ftype).value <= Size
  {
    match i
    case 5 => Field(true, "return_delay_time", UInt8, 9, true)
    case 6 => Field(true, "drive_mode", UInt8, 10, true)
    case 7 => Field(true, "operating_mode", UInt8, 11, true)
    case 8 => Field(true, "secondary_id", UInt8, 12, true)
    case _ => Field(true, "protocol_version", UInt8, 13, true)
  }

  /** Entries 10 to 14 of `fields`. */
  function FieldsFrom10(i: nat): (f: Field)
    requires 10 <= i < 15
    ensures f.eeprom <==> f.address < 64
    ensures Width(f.ftype).Some? && f.address + Width(f.ftype).value <= Size
  {
    match i
    case 10 => Field(true, "___RESERVED01", UInt8aFixed(6), 14, true)
    case 11 => Field(true, "homing_offset", Int32, 20, true)
    case 12 => Field(true, "moving_threshold", UInt32, 24, true)
    case 13 => Field(true, "___RESERVED02", UInt8aFixed(3), 28, true)
    case _ => Field(true, "temperature_limit", UInt8, 31, true)
  }

  /** Entries 15 to 19 of `fields`. */
  function FieldsFrom15(i: nat): (f: Field)
    requires 15 <= i < 20
    ensures f.eeprom <==> f.address < 64
    ensures Width(f.ftype).Some? && f.address + Width(f.ftype).value <= Size
  {
    match i
    case 15 => Field(true, "max_voltage_limit", UInt16, 32, true)
    case 16 => Field(true, "min_voltage_limit", UInt16, 34, true)
    case 17 => Field(true, "pwm_limit", UInt16, 36, true)
    case 18 => Field(true, "current_limit", UInt16, 38, true)
    case _ => Field(true, "acceleration_limit", UInt32, 40, true)
  }

  /** Entries 20 to 24 of `fields`. */
  function FieldsFrom20(i: nat): (f: Field)
    requires 20 <= i < 25
    ensures f.eeprom <==> f.address < 64
    ensures Width(f.ftype).Some? && f.address + Width(f.ftype).value <= Size
  {
    match i
    case 20 => Field(true, "velocity_limit", UInt32, 44, true)
    case 21 => Field(true, "max_position_limit", Int32, 48, true)
    case 22 => Field(true, "min_position_limit", Int32, 52, true)
    case 23 => Field(true, "___RESERVED03", UInt8aFixed(7), 56, true)
    case _ => Field(true, "shutdown", UInt8, 63, true)
  }

  /** Entries 25 to 29 of `fields`. */
  function FieldsFrom25(i: nat): (f: Field)
    requires 25 <= i < 30
    ensures f.eeprom <==> f.address < 64
    ensures Width(f.ftype).Some? && f.address + Width(f.ftype).value <= Size
  {
    match i
    case 25 => Field(false, "torque_enable", UInt8, 64, true)
    case 26 => Field(false, "led", UInt8, 65, true)
    case 27 => Field(false, "___RESERVED04", UInt8aFixed(2), 66, true)
    case 28 => Field(false, "status_return_level", UInt8, 68, true)
    case _ => Field(false, "registered_instruction", UInt8, 69, false)
  }

  /** Entries 30 to 34 of `fields`. */
  function FieldsFrom30(i: nat): (f: Field)
    requires 30 <= i < 35
    ensures f.eeprom <==> f.address < 64
    ensures Width(f.ftype).Some? && f.address + Width(f.ftype).value <= Size
  {
    match i
    case 30 => Field(false, "hardware_error_status", UInt8, 70, false)
    case 31 => Field(false, "___RESERVED05", UInt8aFixed(5), 71, true)
    case 32 => Field(false, "velocity_i_gain", Int16, 76, true)
    case 33 => Field(false, "velocity_p_gain", Int16, 78, true)
    case _ => Field(false, "position_d_gain", Int16, 80, true)
  }

  /** Entries 35 to 39 of `fields`. */
  function FieldsFrom35(i: nat): (f: Field)
    requires 35 <= i < 40
    ensures f.eeprom <==> f.address < 64
    ensures Width(f.ftype).Some? && f.address + Width(f.ftype).value <= Size
  {
    match i
    case 35 => Field(false, "position_i_gain", Int16, 82, true)
    case 36 => Field(false, "position_p_gain", Int16, 84, true)
    case 37 => Field(false, "___RESERVED06", UInt8aFixed(2), 86, true)
    case 38 => Field(false, "feedforward_2nd_gain", Int16, 88, true)
    case _ => Field(false, "feedforward_1st_gain", Int16, 90, true)
  }

  /** Entries 40 to 44 of `fields`. */
  function FieldsFrom40(i: nat): (f: Field)
    requires 40 <= i < 45
    ensures f.eeprom <==> f.address < 64
    ensures Width(f.ftype).Some? && f.address + Width(f.ftype).value <= Size
  {
    match i
    case 40 => Field(false, "___RESERVED07", UInt8aFixed(6), 92, true)
    case 41 => Field(false, "bus_watchdog", UInt8, 98, true)
    case 42 => Field(false, "___RESERVED08", UInt8aFixed(1), 99, true)
    case 43 => Field(false, "goal_pwm", UInt16, 100, true)
    case _ => Field(false, "goal_current", UInt16, 102, true)
  }

  /** Entries 45 to 49 of `fields`. */
  function FieldsFrom45(i: nat): (f: Field)
    requires 45 <= i < 50
    ensures f.eeprom <==> f.address < 64
    ensures Width(f.ftype).Some? && f.address + Width(f.ftype).value <= Size
  {
    match i
    case 45 => Field(false, "goal_velocity", Int32, 104, true)
    case 46 => Field(false, "profile_acceleration", Int32, 108, true)
    case 47 => Field(false, "profile_velocity", Int32, 112, true)
    case 48 => Field(false, "goal_position", Int32, 116, true)
    case _ => Field(false, "realtime_tick", UInt16, 120, false)
  }

  /** Entries 50 to 54 of `fields`. */
  function FieldsFrom50(i: nat): (f: Field)
    requires 50 <= i < 55
    ensures f.eeprom <==> f.address < 64
    ensures Width(f.ftype).Some? && f.address + Width(f.ftype).value <= Size
  {
    match i
    case 50 => Field(false, "moving", UInt8, 122, false)
    case 51 => Field(false, "moving_status", UInt8, 123, false)
    case 52 => Field(false, "present_pwm", UInt16, 124, false)
    case 53 => Field(false, "present_current", UInt16, 126, false)
    case _ => Field(false, "present_velocity", Int32, 128, false)
  }

  /** Entries 55 to 59 of `fields`. */
  function FieldsFrom55(i: nat): (f: Field)
    requires 55 <= i < 60
    ensures f.eeprom <==> f.address < 64
    ensures Width(f.ftype).Some? && f.address + Width(f.ftype).value <= Size
  {
    match i
    case 55 => Field(false, "present_position", Int32, 132, false)
    case 56 => Field(false, "velocity_trajectory", Int32, 136, false)
    case 57 => Field(false, "position_trajectory", Int32, 140, false)
    case 58 => Field(false, "present_input_voltage", UInt16, 144, false)
    case _ => Field(false, "present_temperature", Int8, 146, false)
  }

  /** `ControlTableX.fields`. */
  function FieldList(): (fs: seq<Field>)
    ensures |fs| == FieldCount
    ensures forall i :: 0 <= i < FieldCount ==> fs[i] == FieldAt(i)
  {
    seq(FieldCount, i requires 0 <= i < FieldCount => FieldAt(i))
  }

  /** Character `k` of `s` as a number, or 0 past either end. */
  function CharCode(s: string, k: int): (c: nat)
    ensures 0 <= k < |s| ==> c == s[k] as int
  {
    if 0 <= k < |s| then s[k] as int else 0
  }

  /** A fingerprint of a name from its length and three of its characters;
      equal names have equal fingerprints. */
  function NameKey(s: string): int
  {
    |s| * 0x100_0000 + CharCode(s, 2) * 0x1_0000 + CharCode(s, |s| - 1) * 0x100 + CharCode(s, |s| - 6)
  }

  /** The field whose name has fingerprint `key`, or -1 for none. */
  function IndexOfKey(key: int): int
  {
    match key
    case 0x0C64726E => 0
    case 0x11646E6D => 1
    case 0x10726E65 => 2
    case 0x02006400 => 3
    case 0x09756564 => 4
    case 0x11746579 => 5
    case 0x0A696565 => 6
    case 0x0E656567 => 7
    case 0x0C636461 => 8
    case 0x106F6E65 => 9
    case 0x0D5F3152 => 10
    case 0x0D6D746F => 11
    case 0x10766465 => 12
    case 0x0D5F3252 => 13
    case 0x116D745F => 14
    case 0x1178745F => 15
    case 0x116E745F => 16
    case 0x096D745F => 17
    case 0x0D72745F => 18
    case 0x1263745F => 19
    case 0x0E6C745F => 20
    case 0x1278745F => 21
    case 0x126E745F => 22
    case 0x0D5F3352 => 23
    case 0x08756E75 => 24
    case 0x0D726565 => 25
    case 0x03646400 => 26
    case 0x0D5F3452 => 27
    case 0x13616C5F => 28
    case 0x16676E75 => 29
    case 0x15727373 => 30
    case 0x0D5F3552 => 31
    case 0x0F6C6E69 => 32
    case 0x0F6C6E70 => 33
    case 0x0F736E64 => 34
    case 0x0F736E69 => 35
    case 0x0F736E70 => 36
    case 0x0D5F3652 => 37
    case 0x14656E64 => 38
    case 0x14656E74 => 39
    case 0x0D5F3752 => 40
    case 0x0C736774 => 41
    case 0x0D5F3852 => 42
    case 0x08616D61 => 43
    case 0x0C617475 => 44
    case 0x0D61796C => 45
    case 0x146F6E72 => 46
    case 0x106F796C => 47
    case 0x0D616E73 => 48
    case 0x0D616B65 => 49
    case 0x0676676D => 50
    case 0x0D767373 => 51
    case 0x0B656D6E => 52
    case 0x0F657475 => 53
    case 0x1065796C => 54
    case 0x10656E73 => 55
    case 0x136C7965 => 56
    case 0x13737965 => 57
    case 0x1565656F => 58
    case 0x13656572 => 59
    case _ => -1
  }

  /** What the table promises of entry `i`, here `f`: its name's fingerprint
      leads back to `i`, the text form hides it exactly when it is a byte
      array, it is flagged EEPROM exactly when it starts below address 64, it
      has a fixed width, and it ends where the next entry starts (the last
      one at `size`). */
  predicate RowFacts(i: nat, f: Field)
    requires i < FieldCount
  {
    IndexOfKey(NameKey(f.name)) == i &&
    (IsReserved(f.name) <==> IsArray(f.ftype)) &&
    (f.eeprom <==> f.address < 64) &&
    Width(f.ftype).Some? &&
    f.address + Width(f.ftype).value == if i + 1 < FieldCount then FieldAt(i + 1).address else Size
  }

  /** Entry 0, `model_number`. */
  lemma Row00()
    ensures RowFacts(0, FieldsFrom00(0))
  {
  }

  /** Entry 1, `model_information`. */
  lemma Row01()
    ensures RowFacts(1, FieldsFrom00(1))
  {
  }

  /** Entry 2, `firmware_version`. */
  lemma Row02()
    ensures RowFacts(2, FieldsFrom00(2))
  {
  }

  /** Entry 3, `id`. */
  lemma Row03()
    ensures RowFacts(3, FieldsFrom00(3))
  {
  }

  /** Entry 4, `baud_rate`. */
  lemma Row04()
    ensures RowFacts(4, FieldsFrom00(4))
  {
  }

  /** Entry 5, `return_delay_time`. */
  lemma Row05()
    ensures RowFacts(5, FieldsFrom05(5))
  {
  }

  /** Entry 6, `drive_mode`. */
  lemma Row06()
    ensures RowFacts(6, FieldsFrom05(6))
  {
  }

  /** Entry 7, `operating_mode`. */
  lemma Row07()
    ensures RowFacts(7, FieldsFrom05(7))
  {
  }

  /** Entry 8, `secondary_id`. */
  lemma Row08()
    ensures RowFacts(8, FieldsFrom05(8))
  {
  }

  /** Entry 9, `protocol_version`. */
  lemma Row09()
    ensures RowFacts(9, FieldsFrom05(9))
  {
  }

  /** Entry 10, `___RESERVED01`. */
  lemma Row10()
    ensures RowFacts(10, FieldsFrom10(10))
  {
    assert TripleUnderscoreAt(FieldsFrom10(10).name, 0);
  }

  /** Entry 11, `homing_offset`. */
  lemma Row11()
    ensures RowFacts(11, FieldsFrom10(11))
  {
  }

  /** Entry 12, `moving_threshold`. */
  lemma Row12()
    ensures RowFacts(12, FieldsFrom10(12))
  {
  }

  /** Entry 13, `___RESERVED02`. */
  lemma Row13()
    ensures RowFacts(13, FieldsFrom10(13))
  {
    assert TripleUnderscoreAt(FieldsFrom10(13).name, 0);
  }

  /** Entry 14, `temperature_limit`. */
  lemma Row14()
    ensures RowFacts(14, FieldsFrom10(14))
  {
  }

  /** Entry 15, `max_voltage_limit`. */
  lemma Row15()
    ensures RowFacts(15, FieldsFrom15(15))
  {
  }

  /** Entry 16, `min_voltage_limit`. */
  lemma Row16()
    ensures RowFacts(16, FieldsFrom15(16))
  {
  }

  /** Entry 17, `pwm_limit`. */
  lemma Row17()
    ensures RowFacts(17, FieldsFrom15(17))
  {
  }

  /** Entry 18, `current_limit`. */
  lemma Row18()
    ensures RowFacts(18, FieldsFrom15(18))
  {
  }

  /** Entry 19, `acceleration_limit`. */
  lemma Row19()
    ensures RowFacts(19, FieldsFrom15(19))
  {
  }

  /** Entry 20, `velocity_limit`. */
  lemma Row20()
    ensures RowFacts(20, FieldsFrom20(20))
  {
  }

  /** Entry 21, `max_position_limit`. */
  lemma Row21()
    ensures RowFacts(21, FieldsFrom20(21))
  {
  }

  /** Entry 22, `min_position_limit`. */
  lemma Row22()
    ensures RowFacts(22, FieldsFrom20(22))
  {
  }

  /** Entry 23, `___RESERVED03`. */
  lemma Row23()
    ensures RowFacts(23, FieldsFrom20(23))
  {
    assert TripleUnderscoreAt(FieldsFrom20(23).name, 0);
  }

  /** Entry 24, `shutdown`. */
  lemma Row24()
    ensures RowFacts(24, FieldsFrom20(24))
  {
  }

  /** Entry 25, `torque_enable`. */
  lemma Row25()
    ensures RowFacts(25, FieldsFrom25(25))
  {
  }

  /** Entry 26, `led`. */
  lemma Row26()
    ensures RowFacts(26, FieldsFrom25(26))
  {
  }

  /** Entry 27, `___RESERVED04`. */
  lemma Row27()
    ensures RowFacts(27, FieldsFrom25(27))
  {
    assert TripleUnderscoreAt(FieldsFrom25(27).name, 0);
  }

  /** Entry 28, `status_return_level`. */
  lemma Row28()
    ensures RowFacts(28, FieldsFrom25(28))
  {
  }

  /** Entry 29, `registered_instruction`. */
  lemma Row29()
    ensures RowFacts(29, FieldsFrom25(29))
  {
  }

  /** Entry 30, `hardware_error_status`. */
  lemma Row30()
    ensures RowFacts(30, FieldsFrom30(30))
  {
  }

  /** Entry 31, `___RESERVED05`. */
  lemma Row31()
    ensures RowFacts(31, FieldsFrom30(31))
  {
    assert TripleUnderscoreAt(FieldsFrom30(31).name, 0);
  }

  /** Entry 32, `velocity_i_gain`. */
  lemma Row32()
    ensures RowFacts(32, FieldsFrom30(32))
  {
  }

  /** Entry 33, `velocity_p_gain`. */
  lemma Row33()
    ensures RowFacts(33, FieldsFrom30(33))
  {
  }

  /** Entry 34, `position_d_gain`. */
  lemma Row34()
    ensures RowFacts(34, FieldsFrom30(34))
  {
  }

  /** Entry 35, `position_i_gain`. */
  lemma Row35()
    ensures RowFacts(35, FieldsFrom35(35))
  {
  }

  /** Entry 36, `position_p_gain`. */
  lemma Row36()
    ensures RowFacts(36, FieldsFrom35(36))
  {
  }

  /** Entry 37, `___RESERVED06`. */
  lemma Row37()
    ensures RowFacts(37, FieldsFrom35(37))
  {
    assert TripleUnderscoreAt(FieldsFrom35(37).name, 0);
  }

  /** Entry 38, `feedforward_2nd_gain`. */
  lemma Row38()
    ensures RowFacts(38, FieldsFrom35(38))
  {
  }

  /** Entry 39, `feedforward_1st_gain`. */
  lemma Row39()
    ensures RowFacts(39, FieldsFrom35(39))
  {
  }

  /** Entry 40, `___RESERVED07`. */
  lemma Row40()
    ensures RowFacts(40, FieldsFrom40(40))
  {
    assert TripleUnderscoreAt(FieldsFrom40(40).name, 0);
  }

  /** Entry 41, `bus_watchdog`. */
  lemma Row41()
    ensures RowFacts(41, FieldsFrom40(41))
  {
  }

  /** Entry 42, `___RESERVED08`. */
  lemma Row42()
    ensures RowFacts(42, FieldsFrom40(42))
  {
    assert TripleUnderscoreAt(FieldsFrom40(42).name, 0);
  }

  /** Entry 43, `goal_pwm`. */
  lemma Row43()
    ensures RowFacts(43, FieldsFrom40(43))
  {
  }

  /** Entry 44, `goal_current`. */
  lemma Row44()
    ensures RowFacts(44, FieldsFrom40(44))
  {
  }

  /** Entry 45, `goal_velocity`. */
  lemma Row45()
    ensures RowFacts(45, FieldsFrom45(45))
  {
  }

  /** Entry 46, `profile_acceleration`. */
  lemma Row46()
    ensures RowFacts(46, FieldsFrom45(46))
  {
  }

  /** Entry 47, `profile_velocity`. */
  lemma Row47()
    ensures RowFacts(47, FieldsFrom45(47))
  {
  }

  /** Entry 48, `goal_position`. */
  lemma Row48()
    ensures RowFacts(48, FieldsFrom45(48))
  {
  }

  /** Entry 49, `realtime_tick`. */
  lemma Row49()
    ensures RowFacts(49, FieldsFrom45(49))
  {
  }

  /** Entry 50, `moving`. */
  lemma Row50()
    ensures RowFacts(50, FieldsFrom50(50))
  {
  }

  /** Entry 51, `moving_status`. */
  lemma Row51()
    ensures RowFacts(51, FieldsFrom50(51))
  {
  }

  /** Entry 52, `present_pwm`. */
  lemma Row52()
    ensures RowFacts(52, FieldsFrom50(52))
  {
  }

  /** Entry 53, `present_current`. */
  lemma Row53()
    ensures RowFacts(53, FieldsFrom50(53))
  {
  }

  /** Entry 54, `present_velocity`. */
  lemma Row54()
    ensures RowFacts(54, FieldsFrom50(54))
  {
  }

  /** Entry 55, `present_position`. */
  lemma Row55()
    ensures RowFacts(55, FieldsFrom55(55))
  {
  }

  /** Entry 56, `velocity_trajectory`. */
  lemma Row56()
    ensures RowFacts(56, FieldsFrom55(56))
  {
  }

  /** Entry 57, `position_trajectory`. */
  lemma Row57()
    ensures RowFacts(57, FieldsFrom55(57))
  {
  }

  /** Entry 58, `present_input_voltage`. */
  lemma Row58()
    ensures RowFacts(58, FieldsFrom55(58))
  {
  }

  /** Entry 59, `present_temperature`. */
  lemma Row59()
    ensures RowFacts(59, FieldsFrom55(59))
  {
  }

  /** Entries 0 to 4 keep the promises of the table. */
  lemma RowsFrom00(i: nat)
    requires 0 <= i < 5
    ensures RowFacts(i, FieldsFrom00(i))
  {
    match i
    case 0 => Row00();
    case 1 => Row01();
    case 2 => Row02();
    case 3 => Row03();
    case 4 => Row04();
  }

  /** Entries 5 to 9 keep the promises of the table. */
  lemma RowsFrom05(i: nat)
    requires 5 <= i < 10
    ensures RowFacts(i, FieldsFrom05(i))
  {
    match i
    case 5 => Row05();
    case 6 => Row06();
    case 7 => Row07();
    case 8 => Row08();
    case 9 => Row09();
  }

  /** Entries 10 to 14 keep the promises of the table. */
  lemma RowsFrom10(i: nat)
    requires 10 <= i < 15
    ensures RowFacts(i, FieldsFrom10(i))
  {
    match i
    case 10 => Row10();
    case 11 => Row11();
    case 12 => Row12();
    case 13 => Row13();
    case 14 => Row14();
  }

  /** Entries 15 to 19 keep the promises of the table. */
  lemma RowsFrom15(i: nat)
    requires 15 <= i < 20
    ensures RowFacts(i, FieldsFrom15(i))
  {
    match i
    case 15 => Row15();
    case 16 => Row16();
    case 17 => Row17();
    case 18 => Row18();
    case 19 => Row19();
  }

  /** Entries 20 to 24 keep the promises of the table. */
  lemma RowsFrom20(i: nat)
    requires 20 <= i < 25
    ensures RowFacts(i, FieldsFrom20(i))
  {
    match i
    case 20 => Row20();
    case 21 => Row21();
    case 22 => Row22();
    case 23 => Row23();
    case 24 => Row24();
  }

  /** Entries 25 to 29 keep the promises of the table. */
  lemma RowsFrom25(i: nat)
    requires 25 <= i < 30
    ensures RowFacts(i, FieldsFrom25(i))
  {
    match i
    case 25 => Row25();
    case 26 => Row26();
    case 27 => Row27();
    case 28 => Row28();
    case 29 => Row29();
  }

  /** Entries 30 to 34 keep the promises of the table. */
  lemma RowsFrom30(i: nat)
    requires 30 <= i < 35
    ensures RowFacts(i, FieldsFrom30(i))
  {
    match i
    case 30 => Row30();
    case 31 => Row31();
    case 32 => Row32();
    case 33 => Row33();
    case 34 => Row34();
  }

  /** Entries 35 to 39 keep the promises of the table. */
  lemma RowsFrom35(i: nat)
    requires 35 <= i < 40
    ensures RowFacts(i, FieldsFrom35(i))
  {
    match i
    case 35 => Row35();
    case 36 => Row36();
    case 37 => Row37();
    case 38 => Row38();
    case 39 => Row39();
  }

  /** Entries 40 to 44 keep the promises of the table. */
  lemma RowsFrom40(i: nat)
    requires 40 <= i < 45
    ensures RowFacts(i, FieldsFrom40(i))
  {
    match i
    case 40 => Row40();
    case 41 => Row41();
    case 42 => Row42();
    case 43 => Row43();
    case 44 => Row44();
  }

  /** Entries 45 to 49 keep the promises of the table. */
  lemma RowsFrom45(i: nat)
    requires 45 <= i < 50
    ensures RowFacts(i, FieldsFrom45(i))
  {
    match i
    case 45 => Row45();
    case 46 => Row46();
    case 47 => Row47();
    case 48 => Row48();
    case 49 => Row49();
  }

  /** Entries 50 to 54 keep the promises of the table. */
  lemma RowsFrom50(i: nat)
    requires 50 <= i < 55
    ensures RowFacts(i, FieldsFrom50(i))
  {
    match i
    case 50 => Row50();
    case 51 => Row51();
    case 52 => Row52();
    case 53 => Row53();
    case 54 => Row54();
  }

  /** Entries 55 to 59 keep the promises of the table. */
  lemma RowsFrom55(i: nat)
    requires 55 <= i < 60
    ensures RowFacts(i, FieldsFrom55(i))
  {
    match i
    case 55 => Row55();
    case 56 => Row56();
    case 57 => Row57();
    case 58 => Row58();
    case 59 => Row59();
  }

  /** Every entry keeps the promises of the table. */
  lemma RowFactsAt(i: nat)
    requires i < FieldCount
    ensures RowFacts(i, FieldAt(i))
  {
    if i < 5 {
      RowsFrom00(i);
    } else if i < 10 {
      RowsFrom05(i);
    } else if i < 15 {
      RowsFrom10(i);
    } else if i < 20 {
      RowsFrom15(i);
    } else if i < 25 {
      RowsFrom20(i);
    } else if i < 30 {
      RowsFrom25(i);
    } else if i < 35 {
      RowsFrom30(i);
    } else if i < 40 {
      RowsFrom35(i);
    } else if i < 45 {
      RowsFrom40(i);
    } else if i < 50 {
      RowsFrom45(i);
    } else if i < 55 {
      RowsFrom50(i);
    } else {
      RowsFrom55(i);
    }
  }

  /** The fields tile the map: the first starts at address 0, each ends
      where the next starts, and the last ends at `size`. */
  lemma FieldsContiguous()
    ensures Contiguous(FieldList(), Size)
  {
    var fs := FieldList();
    var ts := Types(fs);
    forall i | 0 <= i < FieldCount
      ensures Width(ts[i]).Some? && Linked(fs, Size, i)
    {
      RowFactsAt(i);
    }
  }

  /** The EEPROM flag marks exactly the fields below address 64. */
  lemma EepromBelow64()
    ensures forall i :: 0 <= i < FieldCount ==> (FieldAt(i).eeprom <==> FieldAt(i).address < 64)
  {
    forall i | 0 <= i < FieldCount
      ensures FieldAt(i).eeprom <==> FieldAt(i).address < 64
    {
      RowFactsAt(i);
    }
  }

  /** No two fields share a name, so a name picks out one field. */
  lemma NamesUnique()
    ensures forall i, j :: 0 <= i < FieldCount && 0 <= j < FieldCount && FieldAt(i).name == FieldAt(j).name ==> i == j
  {
    forall i, j | 0 <= i < FieldCount && 0 <= j < FieldCount && FieldAt(i).name == FieldAt(j).name
      ensures i == j
    {
      RowFactsAt(i);
      RowFactsAt(j);
    }
  }

  /** The text form hides exactly the byte-array fields: the reserved ranges
      are the only arrays, and every field it shows is a number. */
  lemma HiddenExactlyArrays(i: nat)
    requires i < FieldCount
    ensures IsReserved(FieldAt(i).name) <==> IsArray(FieldAt(i).ftype)
  {
    RowFactsAt(i);
  }

  /** The X-series map meets the layout the generic operations rely on: its
      names are distinct and its fields tile `size` bytes. */
  lemma Layout()
    ensures UniqueNames(FieldList())
    ensures PackedAt(FieldList(), Size)
  {
    NamesUnique();
    FieldsTileSize();
  }

  /** The fields of the X-series map tile `size` bytes, each at its address. */
  lemma FieldsTileSize()
    ensures PackedAt(FieldList(), Size)
  {
    FieldsContiguous();
    ContiguousIsPacked(FieldList(), Size);
  }

  /** Every field of the X-series map is found under its own name. */
  lemma FieldInfoOfEachField(i: nat)
    requires i < FieldCount
    ensures GetFieldInfo(FieldList(), FieldAt(i).name) == Some(FieldAt(i))
  {
    Layout();
    FieldInfoByName(FieldList(), i);
  }

  /** A table of the X-series map fills from a buffer exactly when it is
      `size` bytes long; each field then holds the value decoded from the
      bytes at its address, as `PopulateDecodesAtAddress` states for any map
      with the `Layout` facts. */
  lemma ReadTable(buffer: seq<Byte>)
    ensures Populate(FieldList(), buffer).Some? <==> |buffer| == Size
  {
    Layout();
    PopulateNeedsSize(FieldList(), Size, buffer);
  }

  /** In a table read from a `size`-byte buffer, every field of the X-series
      map holds the value decoded from the bytes at its address. */
  lemma ReadTableField(buffer: seq<Byte>, i: nat)
    requires |buffer| == Size && i < FieldCount
    ensures var f := FieldList()[i];
      Width(f.ftype).Some? && f.address + Width(f.ftype).value <= Size &&
      Populate(FieldList(), buffer).Some? &&
      Populate(FieldList(), buffer).value[f.name] ==
        Some(DecodeField(f.ftype, buffer[f.address..f.address + Width(f.ftype).value]))
  {
    Layout();
    PopulateDecodesAtAddress(FieldList(), Size, buffer, i);
  }

  /** The text form of a table read from the servo renders, and every line
      shows a number. */
  lemma ReadTableRenders(buffer: seq<Byte>)
    requires |buffer| == Size
    ensures Populate(FieldList(), buffer).Some?
    ensures var r := Describe(FieldList(), Populate(FieldList(), buffer).value);
      r.Some? && forall j :: 0 <= j < |r.value| ==> r.value[j].value.Some?
  {
    Layout();
    var fs := FieldList();
    forall i | 0 <= i < |fs| && !IsReserved(fs[i].name)
      ensures !IsArray(fs[i].ftype)
    {
      HiddenExactlyArrays(i);
    }
    DescribePopulated(fs, Size, buffer);
  }
}
