/** mailbox/keyboard.c: the two clients of the keyboard's mailbox, which move messages of one byte. */
module Keyboard {
  import opened Mailbox

  /** The size of a message with one character. */
  const MSG_CHAR_SIZE: nat := HEADER + 1

  lemma CharMessage(c: Byte)
    ensures Encode([c]) == [1, 0, 0, 0, c]
  {
  }

  /** putchar, with nobody else at the mailbox: a character that does not fit is dropped. */
  method PutChar(mbox: Mailbox, c: Byte)
    requires mbox.Valid()
    modifies mbox`head, mbox`count, mbox`messages, mbox`sent, mbox.buffer
    ensures mbox.Valid()
    ensures mbox.messages ==
            if Used(old(mbox.messages)) + MSG_CHAR_SIZE <= BUFFER_SIZE then old(mbox.messages) + [[c]] else old(mbox.messages)
  {
    var _, freeSpace := mbox.Stat();
    if freeSpace >= MSG_CHAR_SIZE {
      var msg := new Byte[MSG_CHAR_SIZE];
      msg[0], msg[1], msg[2], msg[3], msg[4] := 1, 0, 0, 0, c;
      CharMessage(c);
      assert msg[..] == Encode([c]);
      mbox.Send(msg, [c]);
    }
  }

  /** getchar, once there is a message: the oldest character. */
  method GetChar(mbox: Mailbox) returns (c: Byte)
    requires mbox.Valid() && mbox.count > 0 && |mbox.messages[0]| == 1
    modifies mbox`tail, mbox`count, mbox`messages, mbox`received
    ensures mbox.Valid() && old(mbox.messages) == [[c]] + mbox.messages
  {
    ghost var first := mbox.messages[0];
    var msg := new Byte[MSG_CHAR_SIZE];
    mbox.Recv(msg);
    CharMessage(first[0]);
    assert first == [first[0]] && msg[..MSG_CHAR_SIZE] == Encode(first);
    c := msg[HEADER];
  }
}
