/** The pair contract: storage changed in place, every call proved against its specification
    on values, a revert putting back whatever the call had already written. */
module Pair {
  import opened MathLib
  import opened TokenLedger
  import opened PairSpec

  /** An exact-transfer token, as far as the pair uses it. */
  class Token {
    var balances: Balances

    constructor (initial: Balances)
      ensures balances == initial
    {
      balances := initial;
    }

    method Transfer(from: Address, to: Address, value: nat) returns (ok: bool)
      modifies this
      ensures ok <==> value <= Bal(old(balances), from)
      ensures balances == if ok then Moved(old(balances), from, to, value) else old(balances)
    {
      if value > Bal(balances, from) {
        return false;
      }
      balances := balances[from := Bal(balances, from) - value];
      balances := balances[to := Bal(balances, to) + value];
      return true;
    }
  }

  class UniswapV2Pair {
    const self: Address
    const token0: Token
    const token1: Token
    var reserve0: nat
    var reserve1: nat
    var lp: Balances
    var allowance: map<(Address, Address), nat>
    var totalSupply: nat

    ghost predicate Valid() {
      token0 != token1
    }

    ghost function State(): PairState
      reads this, token0, token1
    {
      PairState(self, token0.balances, token1.balances, reserve0, reserve1, lp, allowance, totalSupply)
    }

    constructor (self: Address, token0: Token, token1: Token)
      requires self != 0 && token0 != token1
      ensures Valid() && Empty(State())
      ensures this.token0 == token0 && this.token1 == token1 && this.self == self
    {
      this.self, this.token0, this.token1 := self, token0, token1;
      reserve0, reserve1, totalSupply := 0, 0, 0;
      lp, allowance := map[], map[];
    }

    /** The contract as deployed and used before, with ledgers of its own. */
    constructor Deployed(s: PairState)
      ensures Valid() && State() == s
      ensures fresh(token0) && fresh(token1) && self == s.self
    {
      self := s.self;
      token0 := new Token(s.token0);
      token1 := new Token(s.token1);
      reserve0, reserve1, totalSupply := s.reserve0, s.reserve1, s.totalSupply;
      lp, allowance := s.lp, s.allowance;
    }

    method MintTokens(to: Address, value: nat) returns (r: Outcome<()>)
      modifies this`lp, this`totalSupply
      ensures match MintLp(old(State()), to, value)
              case Ok(s) => r == Ok(()) && State() == s
              case Revert(reason) => r == Revert(reason) && State() == old(State())
    {
      if totalSupply + value > MAX_UINT256 || Bal(lp, to) + value > MAX_UINT256 {
        return Revert(Overflow);
      }
      totalSupply := totalSupply + value;
      lp := lp[to := Bal(lp, to) + value];
      return Ok(());
    }

    method Update(balance0: nat, balance1: nat) returns (r: Outcome<()>)
      requires balance0 == Bal(token0.balances, self) && balance1 == Bal(token1.balances, self)
      modifies this`reserve0, this`reserve1
      ensures match PairSpec.Update(old(State()))
              case Ok(s) => r == Ok(()) && State() == s
              case Revert(reason) => r == Revert(reason) && State() == old(State())
    {
      if balance0 > MAX_UINT112 || balance1 > MAX_UINT112 {
        return Revert(ReserveOverflow);
      }
      reserve0, reserve1 := balance0, balance1;
      return Ok(());
    }

    /** The liquidity owed for a deposit; the first deposit takes the Newton root. */
    method LiquidityOf(amount0: nat, amount1: nat) returns (r: Outcome<nat>)
      ensures r == LiquidityFor(State(), amount0, amount1)
    {
      if totalSupply == 0 {
        var product := Checked(amount0 * amount1);
        if product.Revert? {
          return product;
        }
        var root := SqrtOf(product.value);
        return if root < MINIMUM_LIQUIDITY then Revert(Underflow) else Ok(root - MINIMUM_LIQUIDITY);
      }
      var share0 := MulDiv(amount0, totalSupply, reserve0);
      if share0.Revert? {
        return share0;
      }
      var share1 := MulDiv(amount1, totalSupply, reserve1);
      if share1.Revert? {
        return share1;
      }
      return Ok(Min(share0.value, share1.value));
    }

    method Mint(to: Address) returns (r: Outcome<nat>)
      requires Valid()
      modifies this
      ensures match PairSpec.Mint(old(State()), to)
              case Ok(result) => r == Ok(result.1) && State() == result.0
              case Revert(reason) => r == Revert(reason) && State() == old(State())
    {
      var balance0, balance1 := Bal(token0.balances, self), Bal(token1.balances, self);
      if balance0 < reserve0 || balance1 < reserve1 {
        return Revert(Underflow);
      }
      var owed := LiquidityOf(balance0 - reserve0, balance1 - reserve1);
      if owed.Revert? {
        return owed;
      }
      var savedLp, savedSupply := lp, totalSupply;
      if totalSupply == 0 {
        var seeded := MintTokens(0, MINIMUM_LIQUIDITY);
        if seeded.Revert? {
          return Revert(seeded.reason);
        }
      }
      var step: Outcome<()> := Revert(InsufficientLiquidityMinted);
      if owed.value > 0 {
        step := MintTokens(to, owed.value);
        if step.Ok? {
          step := Update(balance0, balance1);
        }
      }
      if step.Revert? {
        lp, totalSupply := savedLp, savedSupply;
        return Revert(step.reason);
      }
      return owed;
    }

    method Burn(to: Address) returns (r: Outcome<(nat, nat)>)
      requires Valid()
      modifies this, token0, token1
      ensures match PairSpec.Burn(old(State()), to)
              case Ok(result) => r == Ok((result.1, result.2)) && State() == result.0
              case Revert(reason) => r == Revert(reason) && State() == old(State())
    {
      var balance0, balance1 := Bal(token0.balances, self), Bal(token1.balances, self);
      var liquidity := Bal(lp, self);
      var redeemed0 := MulDiv(liquidity, balance0, totalSupply);
      if redeemed0.Revert? {
        return Revert(redeemed0.reason);
      }
      var redeemed1 := MulDiv(liquidity, balance1, totalSupply);
      if redeemed1.Revert? {
        return Revert(redeemed1.reason);
      }
      var amount0, amount1 := redeemed0.value, redeemed1.value;
      if amount0 == 0 || amount1 == 0 {
        return Revert(InsufficientLiquidityBurned);
      }
      if liquidity > totalSupply {
        return Revert(Underflow);
      }
      var savedLp, savedSupply := lp, totalSupply;
      var saved0, saved1 := token0.balances, token1.balances;
      lp, totalSupply := lp[self := 0], totalSupply - liquidity;
      var step := Revert(InsufficientBalance);
      var sent := token0.Transfer(self, to, amount0);
      if sent {
        sent := token1.Transfer(self, to, amount1);
        if sent {
          step := Update(Bal(token0.balances, self), Bal(token1.balances, self));
        }
      }
      if step.Revert? {
        lp, totalSupply := savedLp, savedSupply;
        token0.balances, token1.balances := saved0, saved1;
        return Revert(step.reason);
      }
      return Ok((amount0, amount1));
    }

    method Swap(amount0Out: nat, amount1Out: nat, to: Address) returns (r: Outcome<()>)
      requires Valid()
      modifies this, token0, token1
      ensures match PairSpec.Swap(old(State()), amount0Out, amount1Out, to)
              case Ok(s) => r == Ok(()) && State() == s
              case Revert(reason) => r == Revert(reason) && State() == old(State())
    {
      if amount0Out == 0 && amount1Out == 0 {
        return Revert(InsufficientOutput);
      }
      if amount0Out >= reserve0 || amount1Out >= reserve1 {
        return Revert(InsufficientLiquidity);
      }
      var saved0, saved1 := token0.balances, token1.balances;
      var sent := true;
      if amount0Out > 0 {
        sent := token0.Transfer(self, to, amount0Out);
      }
      if sent && amount1Out > 0 {
        sent := token1.Transfer(self, to, amount1Out);
      }
      r := Revert(InsufficientBalance);
      if sent {
        r := FinishSwap(amount0Out, amount1Out);
      }
      if r.Revert? {
        token0.balances, token1.balances := saved0, saved1;
      }
    }

    /** The part of `swap` after the payouts: what came in, the fee check, the new reserves. */
    method FinishSwap(amount0Out: nat, amount1Out: nat) returns (r: Outcome<()>)
      requires amount0Out < reserve0 && amount1Out < reserve1
      modifies this`reserve0, this`reserve1
      ensures var s := old(State());
              var in0 := AmountIn(s.Balance0(), s.reserve0, amount0Out);
              var in1 := AmountIn(s.Balance1(), s.reserve1, amount1Out);
              var checked := if in0 == 0 && in1 == 0 then Revert(InsufficientInput)
                             else CheckK(s.Balance0(), s.Balance1(), in0, in1, s.K());
              if checked.Revert? then r == checked && State() == s
              else match PairSpec.Update(s)
                   case Ok(t) => r == Ok(()) && State() == t
                   case Revert(reason) => r == Revert(reason) && State() == s
    {
      var balance0, balance1 := Bal(token0.balances, self), Bal(token1.balances, self);
      var in0, in1 := AmountIn(balance0, reserve0, amount0Out), AmountIn(balance1, reserve1, amount1Out);
      if in0 == 0 && in1 == 0 {
        return Revert(InsufficientInput);
      }
      r := CheckK(balance0, balance1, in0, in1, reserve0 * reserve1);
      if r.Ok? {
        r := Update(balance0, balance1);
      }
    }

    method Transfer(sender: Address, to: Address, value: nat) returns (r: Outcome<()>)
      modifies this`lp
      ensures match TransferLp(old(State()), sender, to, value)
              case Ok(s) => r == Ok(()) && State() == s
              case Revert(reason) => r == Revert(reason) && State() == old(State())
    {
      if value > Bal(lp, sender) {
        return Revert(Underflow);
      }
      var debited := lp[sender := Bal(lp, sender) - value];
      if Bal(debited, to) + value > MAX_UINT256 {
        return Revert(Overflow);
      }
      lp := debited[to := Bal(debited, to) + value];
      return Ok(());
    }

    method Approve(sender: Address, spender: Address, value: nat)
      modifies this`allowance
      ensures Ok(State()) == ApproveLp(old(State()), sender, spender, value)
    {
      allowance := allowance[(sender, spender) := value];
    }

    method TransferFrom(sender: Address, from: Address, to: Address, value: nat) returns (r: Outcome<()>)
      modifies this`lp, this`allowance
      ensures match TransferFromLp(old(State()), sender, from, to, value)
              case Ok(s) => r == Ok(()) && State() == s
              case Revert(reason) => r == Revert(reason) && State() == old(State())
    {
      var allowed := if (from, sender) in allowance then allowance[(from, sender)] else 0;
      var saved := allowance;
      if allowed != MAX_UINT256 {
        if value > allowed {
          return Revert(Underflow);
        }
        allowance := allowance[(from, sender) := allowed - value];
      }
      r := Transfer(from, to, value);
      if r.Revert? {
        allowance := saved;
      }
    }
  }
}
