// The hash of one key, with the value its author gives in the test driver of
// lookup3: the constants of lib/hash.c:102-146, 176-345 are the original ones.

module HashVector {
  import opened JenkinsHash

  // "Four score and seven years ago"
  const KEY: seq<Byte> :=
    [70, 111, 117, 114, 32, 115, 99, 111, 114, 101, 32, 97, 110, 100, 32, 115, 101, 118, 101, 110, 32, 121, 101, 97, 114,
     115, 32, 97, 103, 111]

  lemma FourScore()
    ensures Digest(false, KEY, 0) == Digests(0x17770551, 0xce7226e6)
  {
    hide Mix; hide Final; hide AddBlock;
    var s0 := State(0xdeadbf0d, 0xdeadbf0d, 0xdeadbf0d);
    StartWord();
    FirstBlock(s0);
    SecondBlock();
    LastBlock();
    assert KEY[12..][12..] == KEY[24..];
  }

  lemma StartWord()
    ensures Start(30, 0) == State(0xdeadbf0d, 0xdeadbf0d, 0xdeadbf0d)
  {
    hide Add;
    var n: nat := 30;
    assert n % 0x1_0000_0000 == 30;
    assert n as Word == 30;
    Sum();
  }

  lemma Sum()
    ensures Add(Add(0xdeadbeef, 30), 0) == 0xdeadbf0d
  {}

  lemma FirstBlock(s: State)
    requires s == State(0xdeadbf0d, 0xdeadbf0d, 0xdeadbf0d)
    ensures Mix(AddBlock(false, KEY, s)) == State(0xf859ad7a, 0x4bc57ae, 0x40dddd7e)
  {
    assert AddBlock(false, KEY, s) == State(0x51232e53, 0x4e11322d, 0x3fce247f);
  }

  lemma SecondBlock()
    ensures Mix(AddBlock(false, KEY[12..], State(0xf859ad7a, 0x4bc57ae, 0x40dddd7e)))
            == State(0x336aded2, 0x59f2642, 0xbd02ebd5)
  {
    var k := KEY[12..];
    assert k == [110, 100, 32, 115, 101, 118, 101, 110, 32, 121, 101, 97, 114, 115, 32, 97, 103, 111];
    assert AddBlock(false, k, State(0xf859ad7a, 0x4bc57ae, 0x40dddd7e)) == State(0x6b7a11e8, 0x7321ce13, 0xa243569e);
  }

  lemma LastBlock()
    ensures Final(AddBlock(false, KEY[24..], State(0x336aded2, 0x59f2642, 0xbd02ebd5)))
            == State(0x9a837816, 0xce7226e6, 0x17770551)
  {
    var k := KEY[24..];
    assert k == [114, 115, 32, 97, 103, 111];
    assert AddBlock(false, k, State(0x336aded2, 0x59f2642, 0xbd02ebd5)) == State(0x948b5244, 0x59f95a9, 0xbd02ebd5);
  }
}
