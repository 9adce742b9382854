# Iron condor: strike construction and expiration payoff

This project models the iron-condor core of a small options trading
script (`ironCondor.py`) over exact Dafny `real`s.

- `IronCondor.BuildCondor` is `iron_condor`. It takes a spot `S`, a
  volatility `sigma`, a horizon `T`, a rate `r` (default 0) and a wing
  width (default 5). It places the short put and short call one
  standard-deviation move `S * sigma * sqrt(T)` below and above the spot.
  The long wings go `width` further out. The four strikes are the datatype
  `Strikes`, one field per key of the dictionary the source returns.
- `IronCondor.Payoff` is the closed form of `iron_condor_payoff`: the
  collected credit, less the short put spread and less the short call
  spread at expiration, each written with `max(0, ·)` terms.
  `IronCondor.PayoffAtExpiration` is the same operation written the way
  the source writes it: a method that accumulates `payoff` leg by leg. It
  is proved equal to the closed form.
- `IronCondor.PayoffByRegion` is an independent, region-by-region reading
  of the payoff, proved equal to the closed form for ordered strikes.

`math.sqrt(T)` is not computed. The caller passes its value as `sqrtT`,
and `IsSqrt(sqrtT, T)` (non-negative, squares to `T`) is required.

The source validates nothing. Where a property needs an assumption
(`sigma >= 0`, `width > 0`, ordered strikes), the property states it as a
hypothesis. The operations themselves accept every input with `T >= 0`:
the builder needs the square root of `T`, and `math.sqrt` raises for a
negative `T`. The code has no validation check, and the model follows the
code: it has no error path.

## Model

| member | source | states |
|---|---|---|
| `IronCondor.Move` | ironCondor.py:18 | The one-standard-deviation move is non-negative for non-negative spot and volatility. It is positive when spot, volatility and horizon are all positive. It is zero exactly when the volatility or the horizon is zero, for a non-zero spot. Its square is `S² sigma² T`. |
| `IronCondor.BuildCondor` | ironCondor.py:5-31 | Both wings are exactly `width` wide. The short strikes sit symmetrically about the spot, one move away. Whenever the move is non-negative and `width > 0` (in particular for `S >= 0`, `sigma >= 0`) the strikes are ordered `long_put < short_put <= S <= short_call < long_call`. The inner inequalities are strict whenever the move is positive (in particular when spot, volatility and horizon are positive). When the volatility or the horizon is zero, both short strikes equal the spot. |
| `IronCondor.RateIsIgnored` | ironCondor.py:9-24 | The strikes are the same for any two rates `r`. |
| `IronCondor.ShapeOf` | ironCondor.py:18-24 | Reads strikes back as a spot, a move and a width: the spot is the midpoint of the short strikes and lies one move from each; for equal wings the width is the width of each wing. |
| `IronCondor.BuildCondorRecoversInputs` | ironCondor.py:18-24 | `ShapeOf` inverts `BuildCondor`: reading back the strikes built from a spot, volatility, horizon and width gives exactly that spot, the move, and that width. |
| `IronCondor.ShapeDeterminesStrikes` | ironCondor.py:20-24 | Two sets of equal-wing strikes with the same spot, move and width are the same strikes, so the strike layout is fully fixed by those three numbers. |
| `IronCondor.EverySymmetricCondorIsBuilt` | ironCondor.py:18-24 | Conversely, any strikes with equal wings, short strikes symmetric about a positive spot and the short put at or below the spot come out of `BuildCondor` for some non-negative volatility and some width. |
| `IronCondor.Payoff` | ironCondor.py:44-54 | For ordered strikes the payoff is never above the credit and never below the credit less the wider wing. The full credit is kept whenever the terminal price lies between the short strikes. When both wings have positive width it is kept only there. Below the long put the payoff is the credit less the put wing; above the long call, the credit less the call wing. |
| `IronCondor.PayoffAtExpiration` | ironCondor.py:33-54 | Accumulating the credit and the four legs one update at a time gives exactly the closed-form payoff. |
| `IronCondor.PayoffMatchesRegions` | ironCondor.py:44-52 | For ordered strikes the closed form equals the five-region piecewise-linear payoff: a flat loss below the long put, rising one-for-one to the short put, a flat credit up to the short call, falling one-for-one to the long call, and a flat loss beyond it. |
| `IronCondor.PayoffShiftsWithCredit` | ironCondor.py:44-54 | Adding `c` to the credit adds exactly `c` to the payoff at every terminal price. |
| `IronCondor.PayoffMonotoneOutside` | ironCondor.py:46-52 | For ordered strikes, the payoff does not decrease as the price rises towards the short put. It does not increase as the price rises beyond the short call. |
| `IronCondor.PayoffLipschitz` | ironCondor.py:44-54 | For ordered strikes, the payoff changes by at most the change in terminal price. |
| `IronCondor.MaxProfitIsCredit` | ironCondor.py:44-54 | For ordered strikes, the credit is the maximum of the payoff: it is an upper bound and some terminal price attains it. |
| `IronCondor.MaxLossIsWorstWing` | ironCondor.py:44-54 | For ordered strikes, the credit less the wider wing is the minimum of the payoff: it is a lower bound and some terminal price attains it. |
| `IronCondor.BuiltCondorPayoffRange` | ironCondor.py:5-54 | For a condor built with `S >= 0`, `sigma >= 0`, `width > 0`, the payoff stays between `credit - width` and `credit` at every terminal price. It is `credit` at the spot and `credit - width` at each long strike. |

## Left out

- Floating point: the model computes over exact reals, so rounding in the strikes and in the payoff is not modelled.
- `math.sqrt(T)`: its value is an input, characterised by `IsSqrt`. The `ValueError` that `math.sqrt` raises for a negative `T` is not modelled; `IsSqrt` cannot hold for a negative `T`.
- The example backtest at the end of `ironCondor.py` (lines 56-86): the market-data download, the volatility estimate, the price grid and the printing are I/O and float statistics.
- `prices.py` (normal distribution and Black-Scholes price and Greeks) is not part of this model. It rests on `erf`, `exp`, `log` and `sqrt`, which exact reals cannot express.
- `priceHistory.py` is not part of this model: it only downloads and prints market data.
- Python's `max(0, x)` returns the integer `0` when `x <= 0`. The model returns `0.0`, which is the same number.
