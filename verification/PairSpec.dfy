/** A pair and the two token ledgers it trades, as values: what `mint`, `burn`, `swap` and
    the LP token calls do, and what every run of such calls keeps. */
module PairSpec {
  import opened MathLib
  import opened TokenLedger
  import opened PoolMath

  const MINIMUM_LIQUIDITY: nat := 1000
  const MAX_UINT112: nat := 0xFFFF_FFFF_FFFF_FFFF_FFFF_FFFF_FFFF
  const MAX_UINT256: nat := 0xFFFF_FFFF_FFFF_FFFF_FFFF_FFFF_FFFF_FFFF_FFFF_FFFF_FFFF_FFFF_FFFF_FFFF_FFFF_FFFF

  /** Why a call reverted; `Underflow`, `Overflow` and `DivisionByZero` are checked-arithmetic panics. */
  datatype Reason =
    | Underflow | Overflow | DivisionByZero
    | InsufficientBalance | InsufficientAllowance
    | InsufficientLiquidityMinted | InsufficientLiquidityBurned
    | InsufficientOutput | InsufficientLiquidity | InsufficientInput
    | KDecreased | ReserveOverflow
    | ZeroInput | InvalidPath | PairNotFound
    | IdenticalTokens | ZeroAddress | PairExists
    | InsufficientAAmount | InsufficientBAmount | InsufficientAmounts

  datatype Outcome<+T> = Ok(value: T) | Revert(reason: Reason) {
    predicate IsFailure() { Revert? }
    function PropagateFailure<U>(): Outcome<U> requires Revert? { Revert(reason) }
    function Extract(): T requires Ok? { value }
  }

  function Require(condition: bool, reason: Reason): Outcome<()> {
    if condition then Ok(()) else Revert(reason)
  }

  function Checked(x: nat): Outcome<nat> {
    if x <= MAX_UINT256 then Ok(x) else Revert(Overflow)
  }

  /** `(a * b) / d` with a checked product and a floor division. */
  function MulDiv(a: nat, b: nat, d: nat): Outcome<nat> {
    var product :- Checked(a * b);
    if d == 0 then Revert(DivisionByZero) else Ok(FloorDiv(product, d))
  }

  /** `self` is the pair's own address; `token0` and `token1` are the ledgers of its two tokens;
      `lp`, `allowance` and `totalSupply` belong to the liquidity token the pair itself is. */
  datatype PairState = PairState(
    self: Address,
    token0: Balances,
    token1: Balances,
    reserve0: nat,
    reserve1: nat,
    lp: Balances,
    allowance: map<(Address, Address), nat>,
    totalSupply: nat)
  {
    function Balance0(): nat { Bal(token0, self) }
    function Balance1(): nat { Bal(token1, self) }
    function K(): nat { reserve0 * reserve1 }
    function Allowance(owner: Address, spender: Address): nat {
      if (owner, spender) in allowance then allowance[(owner, spender)] else 0
    }
  }

  // ----- the liquidity token ---------------------------------------------------------------

  function MintLp(s: PairState, to: Address, value: nat): Outcome<PairState> {
    var supply :- Checked(s.totalSupply + value);
    var credited :- Checked(Bal(s.lp, to) + value);
    Ok(s.(totalSupply := supply, lp := s.lp[to := credited]))
  }

  function BurnLp(s: PairState, from: Address, value: nat): Outcome<PairState> {
    var _ :- Require(value <= Bal(s.lp, from) && value <= s.totalSupply, Underflow);
    Ok(s.(lp := s.lp[from := Bal(s.lp, from) - value], totalSupply := s.totalSupply - value))
  }

  function TransferLp(s: PairState, from: Address, to: Address, value: nat): Outcome<PairState> {
    var _ :- Require(value <= Bal(s.lp, from), Underflow);
    var debited := s.lp[from := Bal(s.lp, from) - value];
    var _ :- Checked(Bal(debited, to) + value);
    Ok(s.(lp := Moved(s.lp, from, to, value)))
  }

  function ApproveLp(s: PairState, owner: Address, spender: Address, value: nat): Outcome<PairState> {
    Ok(s.(allowance := s.allowance[(owner, spender) := value]))
  }

  /** An allowance of 2^256 - 1 is never used up. */
  function TransferFromLp(s: PairState, sender: Address, from: Address, to: Address, value: nat)
    : Outcome<PairState>
  {
    var allowed := s.Allowance(from, sender);
    if allowed == MAX_UINT256 then TransferLp(s, from, to, value)
    else
      var _ :- Require(value <= allowed, Underflow);
      TransferLp(s.(allowance := s.allowance[(from, sender) := allowed - value]), from, to, value)
  }

  // ----- the pool --------------------------------------------------------------------------

  /** Tokens leaving the pair; both tokens move exactly the amount asked for. */
  function Send0(s: PairState, to: Address, amount: nat): Outcome<PairState> {
    var _ :- Require(amount <= s.Balance0(), InsufficientBalance);
    Ok(s.(token0 := Moved(s.token0, s.self, to, amount)))
  }

  function Send1(s: PairState, to: Address, amount: nat): Outcome<PairState> {
    var _ :- Require(amount <= s.Balance1(), InsufficientBalance);
    Ok(s.(token1 := Moved(s.token1, s.self, to, amount)))
  }

  function Update(s: PairState): Outcome<PairState> {
    var _ :- Require(s.Balance0() <= MAX_UINT112 && s.Balance1() <= MAX_UINT112, ReserveOverflow);
    Ok(s.(reserve0 := s.Balance0(), reserve1 := s.Balance1()))
  }

  /** Liquidity tokens owed for a deposit. */
  ghost function LiquidityFor(s: PairState, amount0: nat, amount1: nat): Outcome<nat> {
    if s.totalSupply == 0 then
      var product :- Checked(amount0 * amount1);
      var _ :- Require(FloorSqrt(product) >= MINIMUM_LIQUIDITY, Underflow);
      Ok(FloorSqrt(product) - MINIMUM_LIQUIDITY)
    else
      var share0 :- MulDiv(amount0, s.totalSupply, s.reserve0);
      var share1 :- MulDiv(amount1, s.totalSupply, s.reserve1);
      Ok(Min(share0, share1))
  }

  ghost function Mint(s: PairState, to: Address): Outcome<(PairState, nat)> {
    var _ :- Require(s.reserve0 <= s.Balance0() && s.reserve1 <= s.Balance1(), Underflow);
    var liquidity :- LiquidityFor(s, s.Balance0() - s.reserve0, s.Balance1() - s.reserve1);
    var seeded :- if s.totalSupply == 0 then MintLp(s, 0, MINIMUM_LIQUIDITY) else Ok(s);
    var _ :- Require(liquidity > 0, InsufficientLiquidityMinted);
    var minted :- MintLp(seeded, to, liquidity);
    var updated :- Update(minted);
    Ok((updated, liquidity))
  }

  function Burn(s: PairState, to: Address): Outcome<(PairState, nat, nat)> {
    var liquidity := Bal(s.lp, s.self);
    var amount0 :- MulDiv(liquidity, s.Balance0(), s.totalSupply);
    var amount1 :- MulDiv(liquidity, s.Balance1(), s.totalSupply);
    var _ :- Require(amount0 > 0 && amount1 > 0, InsufficientLiquidityBurned);
    var burned :- BurnLp(s, s.self, liquidity);
    var sent0 :- Send0(burned, to, amount0);
    var sent1 :- Send1(sent0, to, amount1);
    var updated :- Update(sent1);
    Ok((updated, amount0, amount1))
  }

  /** What a side received beyond the reserve that should be left in it. */
  function AmountIn(balance: nat, reserve: nat, amountOut: nat): nat
    requires amountOut <= reserve
  {
    if balance > reserve - amountOut then balance - (reserve - amountOut) else 0
  }

  /** The fee-adjusted constant-product check, `balance * 1000 - amountIn * 3` on each side. */
  function CheckK(balance0: nat, balance1: nat, in0: nat, in1: nat, k: nat): Outcome<()>
    requires in0 <= balance0 && in1 <= balance1
  {
    var scaled0 :- Checked(balance0 * 1000);
    var scaled1 :- Checked(balance1 * 1000);
    var product :- Checked((scaled0 - in0 * 3) * (scaled1 - in1 * 3));
    var bound :- Checked(k * 1000000);
    Require(product >= bound, KDecreased)
  }

  function Swap(s: PairState, amount0Out: nat, amount1Out: nat, to: Address): Outcome<PairState> {
    var _ :- Require(amount0Out > 0 || amount1Out > 0, InsufficientOutput);
    if !(amount0Out < s.reserve0 && amount1Out < s.reserve1) then Revert(InsufficientLiquidity)
    else
      var sent0 :- if amount0Out > 0 then Send0(s, to, amount0Out) else Ok(s);
      var sent1 :- if amount1Out > 0 then Send1(sent0, to, amount1Out) else Ok(sent0);
      var balance0, balance1 := sent1.Balance0(), sent1.Balance1();
      var in0, in1 := AmountIn(balance0, s.reserve0, amount0Out), AmountIn(balance1, s.reserve1, amount1Out);
      var _ :- Require(in0 > 0 || in1 > 0, InsufficientInput);
      var _ :- CheckK(balance0, balance1, in0, in1, s.K());
      Update(sent1)
  }

  // ----- runs ------------------------------------------------------------------------------

  /** One call from outside the pair. Ledger transfers are by holders other than the pair: the
      pair moves its tokens only inside `Burn` and `Swap`, and it never approves a spender. */
  datatype Step =
    | Transfer0(from0: Address, to: Address, amount: nat)
    | Transfer1(from1: Address, to: Address, amount: nat)
    | LpTransfer(sender: Address, to: Address, amount: nat)
    | LpApprove(sender: Address, spender: Address, amount: nat)
    | LpTransferFrom(sender: Address, owner: Address, to: Address, amount: nat)
    | DoMint(to: Address)
    | DoBurn(to: Address)
    | DoSwap(amount0Out: nat, amount1Out: nat, to: Address)

  /** No transaction is sent by address zero or by the pair. */
  predicate FromOutside(self: Address, step: Step) {
    match step
    case Transfer0(from, _, _) => from != self
    case Transfer1(from, _, _) => from != self
    case LpTransfer(sender, _, _) => sender != 0 && sender != self
    case LpApprove(sender, _, _) => sender != 0 && sender != self
    case LpTransferFrom(sender, _, _, _) => sender != 0 && sender != self
    case _ => true
  }

  ghost function Exec(s: PairState, step: Step): Outcome<PairState> {
    match step
    case Transfer0(from, to, amount) =>
      if amount <= Bal(s.token0, from) then Ok(s.(token0 := Moved(s.token0, from, to, amount)))
      else Revert(InsufficientBalance)
    case Transfer1(from, to, amount) =>
      if amount <= Bal(s.token1, from) then Ok(s.(token1 := Moved(s.token1, from, to, amount)))
      else Revert(InsufficientBalance)
    case LpTransfer(sender, to, amount) => TransferLp(s, sender, to, amount)
    case LpApprove(sender, spender, amount) => ApproveLp(s, sender, spender, amount)
    case LpTransferFrom(sender, owner, to, amount) => TransferFromLp(s, sender, owner, to, amount)
    case DoMint(to) => var r :- Mint(s, to); Ok(r.0)
    case DoBurn(to) => var r :- Burn(s, to); Ok(r.0)
    case DoSwap(amount0Out, amount1Out, to) => Swap(s, amount0Out, amount1Out, to)
  }

  /** A reverted call leaves no trace. */
  ghost function Next(s: PairState, step: Step): PairState {
    match Exec(s, step)
    case Ok(t) => t
    case Revert(_) => s
  }

  ghost function Run(s: PairState, steps: seq<Step>): PairState
    decreases |steps|
  {
    if steps == [] then s else Run(Next(s, steps[0]), steps[1..])
  }

  predicate Empty(s: PairState) {
    && s.self != 0
    && s.reserve0 == 0 && s.reserve1 == 0
    && s.lp == map[] && s.allowance == map[] && s.totalSupply == 0
  }

  ghost predicate ApprovedNobody(allowance: map<(Address, Address), nat>, owner: Address) {
    forall key :: key in allowance && key.0 == owner ==> allowance[key] == 0
  }

  predicate Funded(s: PairState) {
    && s.reserve0 > 0 && s.reserve1 > 0
    && Bal(s.lp, 0) >= MINIMUM_LIQUIDITY
    && s.totalSupply >= MINIMUM_LIQUIDITY
    && s.totalSupply * s.totalSupply <= s.K()
  }

  /** What every reachable pair satisfies. */
  ghost predicate Inv(s: PairState) {
    && s.self != 0
    && s.reserve0 <= s.Balance0() && s.reserve1 <= s.Balance1()
    && s.reserve0 <= MAX_UINT112 && s.reserve1 <= MAX_UINT112
    && Total(s.lp) == s.totalSupply
    && ApprovedNobody(s.allowance, 0) && ApprovedNobody(s.allowance, s.self)
    && ((s.totalSupply == 0 && s.reserve0 == 0 && s.reserve1 == 0) || Funded(s))
  }

  /** `t` backs each liquidity token at least as well as `s`: reserve0 * reserve1 / totalSupply^2
      has not fallen, written without division. */
  predicate BackedAsWell(s: PairState, t: PairState) {
    s.K() * (t.totalSupply * t.totalSupply) <= t.K() * (s.totalSupply * s.totalSupply)
  }
}
