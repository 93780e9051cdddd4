/**
 * The rules a basic-block subgraph keeps: the basic blocks taken from the
 * original block occupy non-overlapping half-open byte ranges, each basic
 * block belongs to at most one block description, and a description's
 * maximal size is the sum of the maximal sizes of its basic blocks.
 */
module BasicBlockSubGraphs {

  datatype BasicBlockType = BasicCodeBlock | BasicDataBlock | BasicPaddingBlock

  datatype BlockType = CodeBlock | DataBlock

  /** An instruction, reduced to the number of bytes it encodes to. */
  datatype Instruction = Instruction(size: nat)

  /** A successor (a branch still to be laid out); its encoding is at most one maximal instruction. */
  datatype Successor = Successor

  /** The offset of a basic block that does not come from the original block. */
  const kNoOffset: int := -1

  /**
   * The interval test on the half-open ranges `[o1, o1 + s1)` and
   * `[o2, o2 + s2)`: each starts before the other ends.  For non-empty ranges
   * this is sharing a byte; an empty range also meets a range it lies inside.
   */
  predicate RangesOverlap(o1: int, s1: nat, o2: int, s2: nat) {
    o1 < o2 + s2 && o2 < o1 + s1
  }

  class BasicBlock {
    const name: string
    const kind: BasicBlockType
    /** The offset in the original block, or `kNoOffset`. */
    const offset: int
    const size: nat
    var instructions: seq<Instruction>
    var successors: seq<Successor>

    constructor (name: string, kind: BasicBlockType, offset: int, size: nat)
      ensures this.name == name && this.kind == kind && this.offset == offset && this.size == size
      ensures instructions == [] && successors == []
    {
      this.name := name;
      this.kind := kind;
      this.offset := offset;
      this.size := size;
      instructions := [];
      successors := [];
    }

    method AppendInstruction(instruction: Instruction)
      modifies this
      ensures instructions == old(instructions) + [instruction] && successors == old(successors)
      ensures InstructionsSize(instructions) == old(InstructionsSize(instructions)) + instruction.size
    {
      InstructionsSizeAppend(instructions, [instruction]);
      instructions := instructions + [instruction];
    }

    method AppendSuccessor(successor: Successor)
      modifies this
      ensures successors == old(successors) + [successor] && instructions == old(instructions)
    {
      successors := successors + [successor];
    }
  }

  /** Whether `b` comes from the original block and its range meets `[offset, offset + size)`. */
  predicate Collides(b: BasicBlock, offset: int, size: nat) {
    b.offset >= 0 && RangesOverlap(b.offset, b.size, offset, size)
  }

  /** The total encoded size of a sequence of instructions. */
  function InstructionsSize(instructions: seq<Instruction>): nat {
    if instructions == [] then 0 else instructions[0].size + InstructionsSize(instructions[1..])
  }

  /**
   * The most bytes a basic block can take once laid out: a code block its
   * instructions plus one maximal instruction per successor, any other block
   * its size.
   */
  function BasicBlockMaxSize(bb: BasicBlock, max_instruction_length: nat): nat
    reads bb
  {
    match bb.kind
    case BasicCodeBlock => InstructionsSize(bb.instructions) + |bb.successors| * max_instruction_length
    case _ => bb.size
  }

  /** The sum of the maximal sizes of the basic blocks of `order`. */
  function OrderMaxSize(order: seq<BasicBlock>, max_instruction_length: nat): nat
    reads order
  {
    if order == [] then 0
    else BasicBlockMaxSize(order[0], max_instruction_length) + OrderMaxSize(order[1..], max_instruction_length)
  }

  lemma {:induction false} InstructionsSizeAppend(a: seq<Instruction>, b: seq<Instruction>)
    ensures InstructionsSize(a + b) == InstructionsSize(a) + InstructionsSize(b)
  {
    if a == [] {
      assert a + b == b;
    } else {
      assert (a + b)[0] == a[0] && (a + b)[1..] == a[1..] + b;
      InstructionsSizeAppend(a[1..], b);
    }
  }

  /** The maximal size is additive over the concatenation of orderings. */
  lemma {:induction false} OrderMaxSizeAppend(a: seq<BasicBlock>, b: seq<BasicBlock>, max_instruction_length: nat)
    ensures OrderMaxSize(a + b, max_instruction_length) ==
      OrderMaxSize(a, max_instruction_length) + OrderMaxSize(b, max_instruction_length)
  {
    if a == [] {
      assert a + b == b;
    } else {
      assert (a + b)[0] == a[0] && (a + b)[1..] == a[1..] + b;
      OrderMaxSizeAppend(a[1..], b, max_instruction_length);
    }
  }

  /** A block description: a block of the new block graph and the basic blocks it lays out, in order. */
  class BlockDescription {
    var name: string
    var kind: BlockType
    var basic_block_order: seq<BasicBlock>

    constructor ()
      ensures basic_block_order == []
    {
      name := "";
      kind := CodeBlock;
      basic_block_order := [];
    }

    method AppendBasicBlock(bb: BasicBlock)
      modifies this
      ensures basic_block_order == old(basic_block_order) + [bb]
      ensures name == old(name) && kind == old(kind)
    {
      basic_block_order := basic_block_order + [bb];
    }

    /** An upper bound on the size of the block this description lays out. */
    function GetMaxSize(max_instruction_length: nat): (n: nat)
      reads this, basic_block_order
      ensures forall i :: 0 <= i < |basic_block_order| ==>
        BasicBlockMaxSize(basic_block_order[i], max_instruction_length) <= n
    {
      OrderMaxSizeBounds(basic_block_order, max_instruction_length);
      OrderMaxSize(basic_block_order, max_instruction_length)
    }
  }

  lemma OrderMaxSizeOfThree(a: BasicBlock, b: BasicBlock, c: BasicBlock, max_instruction_length: nat)
    ensures OrderMaxSize([a, b, c], max_instruction_length) ==
      BasicBlockMaxSize(a, max_instruction_length) + BasicBlockMaxSize(b, max_instruction_length) +
      BasicBlockMaxSize(c, max_instruction_length)
  {
    assert [a, b, c][1..] == [b, c] && [b, c][1..] == [c] && [c][1..] == [];
    assert OrderMaxSize([c], max_instruction_length) == BasicBlockMaxSize(c, max_instruction_length);
    assert OrderMaxSize([b, c], max_instruction_length) ==
      BasicBlockMaxSize(b, max_instruction_length) + OrderMaxSize([c], max_instruction_length);
  }

  /** Every basic block contributes no more than the whole ordering. */
  lemma {:induction false} OrderMaxSizeBounds(order: seq<BasicBlock>, max_instruction_length: nat)
    ensures forall i :: 0 <= i < |order| ==>
      BasicBlockMaxSize(order[i], max_instruction_length) <= OrderMaxSize(order, max_instruction_length)
  {
    if order != [] {
      OrderMaxSizeBounds(order[1..], max_instruction_length);
      assert forall i :: 1 <= i < |order| ==> order[i] == order[1..][i - 1];
    }
  }

  /** No basic block is laid out by two different descriptions. */
  ghost predicate AtMostOneDescription(descriptions: seq<BlockDescription>)
    reads descriptions
  {
    forall i, j, bb :: 0 <= i < j < |descriptions| && bb in descriptions[i].basic_block_order ==>
      bb !in descriptions[j].basic_block_order
  }

  /** Two descriptions satisfy the rule exactly when their orderings share no block. */
  lemma TwoDescriptions(d1: BlockDescription, d2: BlockDescription)
    ensures AtMostOneDescription([d1, d2]) <==>
      forall bb :: bb in d1.basic_block_order ==> bb !in d2.basic_block_order
  {
    var descriptions := [d1, d2];
    if AtMostOneDescription(descriptions) {
      assert descriptions[0] == d1 && descriptions[1] == d2;
    }
    if forall bb :: bb in d1.basic_block_order ==> bb !in d2.basic_block_order {
      forall i, j, bb | 0 <= i < j < 2 && bb in descriptions[i].basic_block_order
        ensures bb !in descriptions[j].basic_block_order
      {
        assert i == 0 && j == 1;
      }
    }
  }

  /** Whether no basic block of `descriptions` is in `seen` or in two of them. */
  function MapsToAtMostOne(descriptions: seq<BlockDescription>, seen: set<BasicBlock>): bool
    reads descriptions
    decreases |descriptions|
  {
    if descriptions == [] then true
    else
      var order := descriptions[0].basic_block_order;
      (forall bb :: bb in order ==> bb !in seen) &&
      MapsToAtMostOne(descriptions[1..], seen + set bb | bb in order)
  }

  /** The scan with a set of seen blocks decides the uniqueness rule. */
  lemma {:induction false} MapsToAtMostOneCorrect(descriptions: seq<BlockDescription>, seen: set<BasicBlock>)
    ensures MapsToAtMostOne(descriptions, seen) <==>
      (forall i, bb :: 0 <= i < |descriptions| && bb in descriptions[i].basic_block_order ==> bb !in seen) &&
      AtMostOneDescription(descriptions)
    decreases |descriptions|
  {
    if descriptions != [] {
      var order := descriptions[0].basic_block_order;
      var rest := descriptions[1..];
      var seen' := seen + set bb | bb in order;
      MapsToAtMostOneCorrect(rest, seen');
      assert forall i :: 0 <= i < |rest| ==> rest[i] == descriptions[i + 1];
      if MapsToAtMostOne(descriptions, seen) {
        forall i, bb | 0 <= i < |descriptions| && bb in descriptions[i].basic_block_order
          ensures bb !in seen
        {
          if i > 0 {
            assert descriptions[i] == rest[i - 1];
          }
        }
        forall i, j, bb | 0 <= i < j < |descriptions| && bb in descriptions[i].basic_block_order
          ensures bb !in descriptions[j].basic_block_order
        {
          if i == 0 {
            assert bb in seen' && descriptions[j] == rest[j - 1];
          } else {
            assert descriptions[i] == rest[i - 1] && descriptions[j] == rest[j - 1];
          }
        }
      }
      if (forall i, bb :: 0 <= i < |descriptions| && bb in descriptions[i].basic_block_order ==> bb !in seen) &&
         AtMostOneDescription(descriptions)
      {
        forall i, bb | 0 <= i < |rest| && bb in rest[i].basic_block_order
          ensures bb !in seen'
        {
          assert bb in descriptions[i + 1].basic_block_order;
        }
      }
    }
  }

  class BasicBlockSubGraph {
    /** The basic blocks, in the order they were added. */
    var basic_blocks: seq<BasicBlock>
    var block_descriptions: seq<BlockDescription>

    /** The blocks are distinct and those from the original block occupy disjoint ranges. */
    ghost predicate Valid()
      reads this
    {
      (forall i, j :: 0 <= i < j < |basic_blocks| ==> basic_blocks[i] != basic_blocks[j]) &&
      (forall i, j :: 0 <= i < j < |basic_blocks| && basic_blocks[j].offset >= 0 ==>
        !Collides(basic_blocks[i], basic_blocks[j].offset, basic_blocks[j].size))
    }

    constructor ()
      ensures Valid() && basic_blocks == [] && block_descriptions == []
    {
      basic_blocks := [];
      block_descriptions := [];
    }

    /**
     * Adds a basic block, or returns null when it comes from the original
     * block and its range overlaps that of one already added.
     */
    method AddBasicBlock(name: string, kind: BasicBlockType, offset: int, size: nat) returns (bb: BasicBlock?)
      requires Valid() && offset >= kNoOffset
      modifies this`basic_blocks
      ensures Valid()
      ensures bb == null <==>
        offset >= 0 && exists i :: 0 <= i < |old(basic_blocks)| && Collides(old(basic_blocks)[i], offset, size)
      ensures bb == null ==> basic_blocks == old(basic_blocks)
      ensures bb != null ==>
        fresh(bb) && basic_blocks == old(basic_blocks) + [bb] &&
        bb.name == name && bb.kind == kind && bb.offset == offset && bb.size == size &&
        bb.instructions == [] && bb.successors == []
    {
      if offset >= 0 {
        var i := 0;
        while i < |basic_blocks|
          invariant 0 <= i <= |basic_blocks|
          invariant forall j :: 0 <= j < i ==> !Collides(basic_blocks[j], offset, size)
        {
          if Collides(basic_blocks[i], offset, size) {
            return null;
          }
          i := i + 1;
        }
      }
      bb := new BasicBlock(name, kind, offset, size);
      basic_blocks := basic_blocks + [bb];
    }

    /** Appends an empty block description and returns it. */
    method PushBlockDescription() returns (d: BlockDescription)
      modifies this`block_descriptions
      ensures fresh(d) && d.basic_block_order == [] && block_descriptions == old(block_descriptions) + [d]
    {
      d := new BlockDescription();
      block_descriptions := block_descriptions + [d];
    }

    /** Whether every basic block appears in the ordering of at most one block description. */
    predicate MapsBasicBlocksToAtMostOneDescription()
      reads this, block_descriptions
      ensures MapsBasicBlocksToAtMostOneDescription() <==> AtMostOneDescription(block_descriptions)
    {
      MapsToAtMostOneCorrect(block_descriptions, {});
      MapsToAtMostOne(block_descriptions, {})
    }
  }

  /** The half-open ranges of two added blocks: an overlap is refused, a neighbour accepted. */
  method AddBasicBlockScenario() returns (bb1: BasicBlock?, bb2: BasicBlock?, bb3: BasicBlock?)
    ensures bb1 != null && bb2 == null && bb3 != null && bb1 != bb3
  {
    var subgraph := new BasicBlockSubGraph();
    bb1 := subgraph.AddBasicBlock("bb1", BasicCodeBlock, 0, 32);
    bb2 := subgraph.AddBasicBlock("bb2", BasicCodeBlock, 16, 32);
    assert Collides(subgraph.basic_blocks[0], 16, 32);
    bb3 := subgraph.AddBasicBlock("bb3", BasicCodeBlock, 32, 32);
  }

  /** A subgraph holding three basic blocks that do not come from the original block. */
  method NewSubGraphOfThree() returns (subgraph: BasicBlockSubGraph, bb1: BasicBlock, bb2: BasicBlock, bb3: BasicBlock)
    ensures fresh(subgraph) && fresh(bb1) && fresh(bb2) && fresh(bb3)
    ensures subgraph.Valid() && subgraph.basic_blocks == [bb1, bb2, bb3] && subgraph.block_descriptions == []
    ensures bb1 != bb2 && bb2 != bb3 && bb1 != bb3
  {
    subgraph := new BasicBlockSubGraph();
    var b1 := subgraph.AddBasicBlock("bb1", BasicCodeBlock, kNoOffset, 0);
    var b2 := subgraph.AddBasicBlock("bb2", BasicCodeBlock, kNoOffset, 0);
    var b3 := subgraph.AddBasicBlock("bb3", BasicCodeBlock, kNoOffset, 0);
    bb1, bb2, bb3 := b1, b2, b3;
  }

  /** Sharing a block between descriptions is caught; listing several in one is not. */
  method MapsBasicBlocksScenario() returns (first: bool, second: bool, third: bool)
    ensures first && second && !third
  {
    var subgraph, bb1, bb2, bb3 := NewSubGraphOfThree();
    var b1 := subgraph.PushBlockDescription();
    b1.AppendBasicBlock(bb1);
    var b2 := subgraph.PushBlockDescription();
    b2.AppendBasicBlock(bb2);
    assert subgraph.block_descriptions == [b1, b2];
    TwoDescriptions(b1, b2);
    first := subgraph.MapsBasicBlocksToAtMostOneDescription();
    b1.AppendBasicBlock(bb3);
    assert b1.basic_block_order == [bb1, bb3] && b2.basic_block_order == [bb2];
    TwoDescriptions(b1, b2);
    second := subgraph.MapsBasicBlocksToAtMostOneDescription();
    b2.AppendBasicBlock(bb3);
    assert bb3 in b1.basic_block_order && bb3 in b2.basic_block_order;
    TwoDescriptions(b1, b2);
    third := subgraph.MapsBasicBlocksToAtMostOneDescription();
  }

  /** The three blocks of the size scenario, added to a new subgraph without an offset in the original block. */
  method NewSizeBlocks() returns (subgraph: BasicBlockSubGraph, code: BasicBlock, data: BasicBlock, padding: BasicBlock)
    ensures fresh(subgraph) && fresh(code) && fresh(data) && fresh(padding)
    ensures subgraph.Valid() && |subgraph.basic_blocks| == 3
    ensures code.kind == BasicCodeBlock && code.instructions == [] && code.successors == []
    ensures data.kind == BasicDataBlock && data.size == 16
    ensures padding.kind == BasicPaddingBlock && padding.size == 32
  {
    subgraph := new BasicBlockSubGraph();
    var c := subgraph.AddBasicBlock("code", BasicCodeBlock, kNoOffset, 0);
    var d := subgraph.AddBasicBlock("data", BasicDataBlock, kNoOffset, 16);
    var p := subgraph.AddBasicBlock("padding", BasicPaddingBlock, kNoOffset, 32);
    code, data, padding := c, d, p;
  }

  /** Gives the code block of the size scenario instructions of 5, 1 and 3 bytes and two successors. */
  method FillCodeBlock(code: BasicBlock)
    requires code.instructions == [] && code.successors == []
    modifies code
    ensures InstructionsSize(code.instructions) == 5 + 1 + 3 && |code.successors| == 2
  {
    code.AppendInstruction(Instruction(5));
    code.AppendInstruction(Instruction(1));
    code.AppendInstruction(Instruction(3));
    code.AppendSuccessor(Successor);
    code.AppendSuccessor(Successor);
  }

  /** A code, a data and a padding block of one subgraph, laid out by one of its descriptions. */
  method GetMaxSizeScenario(max_instruction_length: nat) returns (n: nat)
    ensures n == 32 + 16 + (5 + 1 + 3) + 2 * max_instruction_length
  {
    var subgraph, code, data, padding := NewSizeBlocks();
    FillCodeBlock(code);
    var desc := subgraph.PushBlockDescription();
    desc.AppendBasicBlock(code);
    desc.AppendBasicBlock(data);
    desc.AppendBasicBlock(padding);
    assert desc.basic_block_order == [code, data, padding];
    assert BasicBlockMaxSize(code, max_instruction_length) == 9 + 2 * max_instruction_length;
    OrderMaxSizeOfThree(code, data, padding, max_instruction_length);
    n := desc.GetMaxSize(max_instruction_length);
  }
}
