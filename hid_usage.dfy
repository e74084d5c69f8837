/** Fixed data of the keyboard firmware: usage IDs from the Keyboard/Keypad
    page (0x07) of the USB HID Usage Tables 1.12, section 10, the modifier
    bit it uses, the key-code table typed by the URL button, and the HID
    report descriptor handed to the USB driver. */
module HidUsage {

  /** Keyboard/Keypad usage ID of the letter C. */
  const KeyC: bv8 := 0x06
  /** Keyboard/Keypad usage ID of the letter V. */
  const KeyV: bv8 := 0x19
  /** Keyboard/Keypad usage ID of Enter (Return). */
  const KeyEnter: bv8 := 0x28

  /** Bit 0 of the modifier byte: left Control. */
  const ModControlLeft: bv8 := 0x01

  /** Number of keystrokes typed by the URL button. */
  const ButtonUrlLen: nat := 18

  /** "stackoverflow.com" followed by Enter, one usage ID per keystroke,
      all typed without a modifier. */
  const ButtonUrl: seq<bv8> :=
    [0x16, 0x17, 0x04, 0x06, 0x0e, 0x12, 0x19, 0x08, 0x15,
     0x09, 0x0f, 0x12, 0x1a, 0x37, 0x06, 0x12, 0x10, KeyEnter]

  /** The 35-byte report descriptor: an 8-bit modifier bitmap followed by
      one 8-bit key code. The model does not interpret it. */
  const ReportDescriptor: seq<bv8> :=
    [0x05, 0x01, 0x09, 0x06, 0xa1, 0x01, 0x05, 0x07, 0x19, 0xe0,
     0x29, 0xe7, 0x15, 0x00, 0x25, 0x01, 0x75, 0x01, 0x95, 0x08,
     0x81, 0x02, 0x95, 0x01, 0x75, 0x08, 0x25, 0x65, 0x19, 0x00,
     0x29, 0x65, 0x81, 0x00, 0xc0]
}
